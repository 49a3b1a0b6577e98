# Leon control plane: a verified model

Leon is a personal assistant whose control plane keeps everything that matters in small SQLite tables and
survives crashes, restarts and competing workers. This project models its crash-tolerant protocols and its
exactly specified algorithms in Dafny and proves what they promise.

Each protocol is a transition system. One committed transaction, one outside request or one answer is one step;
a crash or another worker may come between any two, and the outside world (provider, calendar, browser, executor,
queue, clock) answers as it likes. A run is a list of steps, a step that is not enabled changes nothing, and the
theorems hold in every state some run reaches. Beside each system stands a class that does what the code does, in
place and in the code's order; its methods are proved to perform steps of the system, so an uninterrupted call is
one of its runs. Lemmas named `...Exactly` and `...ExactlyWhen` say of each operation what it does and when, in both
directions and without naming how it decides.

| files | what they model |
|---|---|
| OpenAiText, ModelLedger, ModelRuns, ModelLaws, ModelExecutor | paid model calls: cost arithmetic, the ledger with holds, charges, caps and receipts, cost-only recovery, and exactly when each transaction does what |
| CalendarWriter, CalendarRuns, CalendarService | one-shot calendar changes with readback and recovery |
| OwnerUpdates, CodeTools, CodeToolOwners, CodeToolService | generated tools run at most once, and messages published at most once |
| GpuLease, GpuScheduler | the GPU lease with ageing priorities |
| ThermalGuard, ThermalProcess | the thermal guard with its dwell time and restart debt |
| PlannerPreview, GoogleReadonly, CalendarPlanner | free time: sweep, paginated reading, and both end to end |
| BrowserSends, ReplySchedule, ShopperRuns, ShopperContacts, ShopperReplies, ShopperService | the marketplace shopper's limits, claims, replies and schedule |
| ChatPrompt, ChatRepeats, ChatRuns, ChatServes, ChatService | prompt packing, approval-bound chat turns, and how often one approval serves |
| Wrappers, Json, Sorting | shared shapes |

Conventions. Text is UTF-8, one `char` per byte, so lengths are byte lengths. Times are whole numbers: seconds, or
microseconds for the planner and for chat. Days of wall-clock time have 24 hours. Digests are taken to be
collision-free; the chat model says so as an explicit hypothesis, elsewhere values are compared directly. Ids are
natural numbers or strings without structure.

Findings the proofs make precise:

- Both budget caps hold without any assumption on the clock (`ModelRuns.BudgetsNeverExceeded`).
- Three errors can never be raised: a stored cap below the hold, a charge above the hold, and an accepted chat message
  without room for a prompt. The overlap test inside the conflict sweep always passes.
- The contact limit is two per half-open day; a window closed at both ends can hold four, and never more.
- The browser's spacing rests on one thing only: that each granted claim is stamped a minute after the newest row.
  Setting the clock back between the two readings of a claim can break it, and the contact limit likewise
  (`BrowserSends.SpacedExactlyWhen`, `ShopperContacts.LimitHoldsExactlyWhen`); nothing is assumed about it between claims.
- A later message can be answered before an earlier one, exactly in the cases of `ReplySchedule.OvertakesExactlyWhen`;
  by more than 45 minutes exactly if only the earlier one is put off overnight.
- A reply is decided on within the hours, but clicked without another look at the clock
  (`ShopperReplies.ClickInHoursExactlyWhen`, `ShopperReplies.ClickMayBeLate`).
- One chat preview can serve several submissions. Its digest binds the text of the prompt, the limits and the provider,
  and neither the request, the conversation, its revision nor what has happened since. After any steps a new request
  under it is accepted exactly when it would send that text on those terms (`ChatServes.ServesAgainExactlyWhen`); among
  single lines, exactly when it quotes the same memory and the turns the preview showed are again the longest end of
  its conversation that fits (`ChatServes.LinesServeAgainExactlyWhen`). It happens with a prompt full of copies of the
  message (`LongMessageServesTwice`, `RepeatedMessageServesTwice`), after a long reply (`LongReplyServesAgain`), and for
  another message that quotes the first turns (`OtherMessageIsServed`).
- The limit on recovery reads is checked where a row is selected, not where it is claimed
  (`CalendarRuns.CountsWithinExactlyWhen`). It holds unless a clock is set back in between.
- A generated-tool request found running after a crash takes over the call result stored under its id without
  comparing tool and arguments (code_tools.py:202-210). The result is the request's own exactly unless a direct
  invocation had recorded another call under that id (`CodeToolOwners.OwnUnlessForeign`). Apart from its tests, the
  repository calls `invoke` only from the worker, with the row's own tool and arguments, so there it always is.

## Model

| member | source | states |
|---|---|---|
| `OpenAiText.CostIsTheCeiling` | src/leon_control_plane/openai_text.py:96-99 | The charge is the least whole number of micro-dollars covering the tariff: no smaller amount does, and it does. |
| `OpenAiText.CostOfTwoCalls` | src/leon_control_plane/openai_text.py:96-99 | Charging two calls separately never undercharges their sum and overcharges it by at most one micro-dollar. |
| `OpenAiText.ParseUsage` | src/leon_control_plane/openai_text.py:121-137 | Accepted usage has a final status and counts inside the approved envelope, is charged at the rounded-up cost, and never costs more than the reservation. |
| `OpenAiText.ParsedExactlyWhen` | src/leon_control_plane/openai_text.py:121-137 | Usage is accepted iff it comes from the approved model, finished without error, with both counts inside the envelope; and exactly as reported. |
| `OpenAiText.ReservationCovers` | src/leon_control_plane/openai_text.py:102-137 | No usage inside the envelope costs more than the reservation held for the call. |
| `OpenAiText.ReservationIsTight` | src/leon_control_plane/openai_text.py:102-103 | Some usage inside the envelope costs the whole reservation, so a smaller hold would be wrong. |
| `OpenAiText.ReceiptRoundTrip` | src/leon_control_plane/model_receipts.py:49-56 | Re-reading a stored receipt returns the usage it was made from exactly when that usage lies in the envelope. |
| `OpenAiText.ReadParts` | src/leon_control_plane/openai_text.py:150-156 | One message is understood iff every part is text or a refusal; the collected texts are its texts in order. |
| `OpenAiText.ParseResponse` | src/leon_control_plane/openai_text.py:140-163 | An answer exists iff usage and the whole output are understood and the text is not oversized; it is the joined, redacted text, complete only without refusal. |
| `OpenAiText.AnsweredExactlyWhen` | src/leon_control_plane/openai_text.py:140-163 | An answer exists iff its usage is accepted, every output item is reasoning or an assistant message of texts and refusals, and the text fits; it is complete iff the provider says so, it is not empty and no message refuses. |
| `OpenAiText.JoinConcat` | src/leon_control_plane/openai_text.py:157 | The texts are joined by line breaks, in order. |
| `ModelLedger.Prepare` | src/leon_control_plane/model_work.py:45-57 | An approval is stored only with a cap between 1 and the maximum that covers the hold sending will take. |
| `ModelLedger.Proposal` | src/leon_control_plane/model_receipts.py:39-63 | A recovery proposal is always the usage on the call's own receipt. |
| `ModelLedger.SentTodayIsBudgeted` | src/leon_control_plane/model_work.py:182-186 | Everything held or charged for rows sent on a UTC day is contained in the sum the daily check compares. |
| `ModelRuns.BudgetsNeverExceeded` | src/leon_control_plane/model_work.py:134-239 | Over every interleaving of begin, receipt, finish, recovery, takeover and crash, held plus charged never exceeds the total cap, nor any day's cap for the rows sent that day; no assumption on the clock. |
| `ModelRuns.SentAtMostOnce` | src/leon_control_plane/model_work.py:145-155 | An external job is authorised for sending at most once in its life, and its row records whether it was. |
| `ModelRuns.ViewIsTruthful` | src/leon_control_plane/model_work.py:82-90 | The owner's view says "no call made" iff none was authorised, and "made" only for exactly one authorised call with a receipt. |
| `ModelRuns.FinalRowsAreFrozen` | src/leon_control_plane/model_work.py:220-235 | A settled or reconciled external row has a receipt, and neither row nor receipt ever changes again. |
| `ModelRuns.AuthorisedCallsStayCovered` | src/leon_control_plane/model_work.py:177-192 | While the outcome is open the row holds exactly the reservation, which bounds every usage in the envelope; once closed it charges exactly the receipt's cost. |
| `ModelRuns.ProposalExistsExactlyWithReceipt` | src/leon_control_plane/model_receipts.py:43-59 | In reachable states a proposal exists iff the call is open or reconciled and has a receipt; the integrity and "exceeds reservation" errors are unreachable. |
| `ModelRuns.ApprovedCapIsEnough` | src/leon_control_plane/model_work.py:178-179 | Sending never meets a stored cap below its hold: that error is unreachable. |
| `ModelRuns.FinishAndReconcileAgree` | src/leon_control_plane/model_receipts.py:71-88 | A late worker and an approved recovery of one call commute: either order closes the row with the same single charge and the same exposure in every sum. |
| `ModelRuns.CrashedCallIsRecoverable` | src/leon_control_plane/model_work.py:152-155 | After a crash behind the receipt, takeover and approval close the call at its cost without a second send. |
| `ModelRuns.BeginShapes` | src/leon_control_plane/model_work.py:134-192 | All the begin transaction can do: nothing, mark a takeover unknown, or authorise one approved call inside both budgets. |
| `ModelLaws.AuthorisedExactlyWhen` | src/leon_control_plane/model_work.py:134-192 | In reachable states a begin authorises a call iff the lease holds (token, step, time), the row has no result, task and route are eligible and, for a paid call, it is approved, enabled, keyed, both caps positive, the tariff current, the contract kept, the cap at least the hold, no row unknown and both budgets have room; it then sends what was approved. |
| `ModelLaws.BudgetSums` | src/leon_control_plane/model_work.py:182-186 | What the two budget checks sum: all that is held or charged; and for a day all that is held and what was charged for rows sent since it began. |
| `ModelLaws.SendsGrowExactlyWhen` | src/leon_control_plane/model_work.py:134-192 | Over every step of every run: the sends grow iff a free worker begins a call that may go, by that call alone, with the hold taken and only a local lease extended. |
| `ModelLaws.BegunOtherwise` | src/leon_control_plane/model_work.py:134-189 | Stored evidence is returned whenever the lease holds, an interrupted paid call is marked unknown, and a refusal leaves the ledger alone and names something that is the case. |
| `ModelLaws.EnqueuedExactlyWhen` | src/leon_control_plane/model_work.py:45-62 | An approval is stored iff it was given, acceptable, within the limits, and its cap covers its hold; it is then the next row, with nothing held. |
| `ModelLaws.ReceiptStoredExactlyWhen` | src/leon_control_plane/model_receipts.py:20-36 | A receipt is accepted iff usage of a sent request parses and contradicts no earlier one. |
| `ModelLaws.RecordedExactlyWhen` | src/leon_control_plane/model_receipts.py:20-36 | In a run a reply leaves a receipt iff its usage parses; otherwise the call has failed. |
| `ModelLaws.PaidCallEnds` | src/leon_control_plane/model_work.py:216-237 | A paid row ends settled with the parsed, clean answer at its receipt's cost, or unknown with its hold kept; a reconciled one stays. |
| `ModelLaws.LocalCallEnds` | src/leon_control_plane/model_work.py:216-232 | A local row ends settled with the clean text it was given, free of charge, or approved again. |
| `ModelLaws.ReconciledExactlyWhen` | src/leon_control_plane/model_receipts.py:71-88 | A review closes a call iff the call is unknown, has a receipt, and that is what was reviewed. |
| `ModelLaws.ViewSaysMadeExactlyWhen` | src/leon_control_plane/model_work.py:82-90 | The view says "made" iff the call was sent and is closed, and leaves it open iff it was sent and is not. |
| `ModelLaws.StoredAnswerWasHeard` | src/leon_control_plane/model_work.py:144-146 | Over every run the answer a row holds is what its worker was told: for a paid job what its only response parses to, clean, at its own cost; a later begin returns it and sends nothing. |
| `ModelExecutor.CallComposed` | src/leon_control_plane/model_work.py:194-239 | The events of an undisturbed call compose to begin, receipt and finish of that call. |
| `ModelExecutor.Executor.Enqueue` | src/leon_control_plane/model_work.py:45-62 | A validated approval becomes the next row, with nothing held; an invalid one changes nothing. |
| `ModelExecutor.Executor.BeginCall` | src/leon_control_plane/model_work.py:134-192 | The in-place transaction equals the begin step of the interleaving model, refusals included. |
| `ModelExecutor.Executor.RecordUsage` | src/leon_control_plane/model_receipts.py:20-36 | Stores the receipt of an authorised send once; a conflicting or unauthorised one raises and changes nothing. |
| `ModelExecutor.Executor.FinishCall` | src/leon_control_plane/model_work.py:220-239 | Equals the finish step: a reconciled row is left alone and its result returned. |
| `ModelExecutor.Executor.ReconcileCost` | src/leon_control_plane/model_receipts.py:71-88 | Equals the recovery step: charged only for the reviewed receipt, idempotent once reconciled. |
| `ModelExecutor.Executor.Execute` | src/leon_control_plane/model_work.py:194-239 | An uninterrupted call, with answers that fail to arrive, to parse or to pass the secret scan, leaves the ledger as the run of its events does and returns what that run reports. |
| `ModelExecutor.ReportIsStored` | src/leon_control_plane/model_work.py:194-239 | What `execute` returns is what the ledger says afterwards; a refusal leaves the ledger alone. |
| `CalendarWriter.Normalize` | src/leon_control_plane/calendar_writer.py:84-110 | A normalised command has a start before its end, all fields for a create, some field for an update, none for a delete, and a target unless it creates. |
| `CalendarWriter.NormalizedExactlyWhen` | src/leon_control_plane/calendar_writer.py:84-110 | Arguments are accepted iff they have what the action needs and nothing else, titles in range and times in order; and as exactly these. |
| `CalendarWriter.MatchesIffAlreadyApplied` | src/leon_control_plane/calendar_writer.py:232-244 | The readback test accepts exactly the fields the write would leave unchanged, and always accepts what the write produces. |
| `CalendarWriter.ConfirmedExactlyWhen` | src/leon_control_plane/calendar_writer.py:203-209 | A readback confirms a deletion iff the event is gone or cancelled, and a write iff it is there, not cancelled and writing again would change nothing; a creation only with its own mark. |
| `CalendarRuns.MutatesAtMostOnce` | src/leon_control_plane/calendar_writer.py:148-202 | Over every run with crashes, lost replies, late delivery, edits and recovery a request sends at most one POST, PATCH or DELETE, and none before its row is marked. |
| `CalendarRuns.CompletedWasObserved` | src/leon_control_plane/calendar_writer.py:203-213 | A completed operation was confirmed by a GET that showed the requested state of that very command. |
| `CalendarRuns.OnlyPersonalVersionsChange` | src/leon_control_plane/calendar_writer.py:192-202 | Updates and deletes take effect only on the very version of the event that this request's own GET returned, which was personal and owner-organised, by If-Match as in section 13.1.1 of RFC 9110. |
| `CalendarRuns.DeliveryNeedsTheVersion` | src/leon_control_plane/calendar_writer.py:124-128 | A conditional write that arrives changes the calendar iff the event still is the version it names, and no other event. |
| `CalendarRuns.RecoveryReadsAreBounded` | src/leon_control_plane/calendar_writer.py:254-288 | Whatever the clocks do, each recovery read is counted in the row; while none is set back between selecting and claiming, at most five are made, however many reconcilers select it. |
| `CalendarRuns.CountsWithinExactlyWhen` | src/leon_control_plane/calendar_writer.py:254-286 | Over any run no row counts more than five iff every admitted claim still found fewer than five, which the selection checks and the claim does not. |
| `CalendarRuns.SetBackClockAllowsAnyNumber` | src/leon_control_plane/calendar_writer.py:254-286 | With clocks set back to the recorded time any number of recovery reads is reachable. |
| `CalendarWriter.SecondClaimExactlyWhen` | src/leon_control_plane/calendar_writer.py:283-286 | Of two reconcilers that selected one row the second is admitted too iff the first claimed at the very instant already recorded. |
| `CalendarRuns.CompletionIsAbsorbing` | src/leon_control_plane/calendar_writer.py:153-158 | A request id keeps its command, completion is final with a fixed result, and its one message never changes. |
| `CalendarRuns.OpenedExactly` | src/leon_control_plane/calendar_writer.py:151-171 | When a request is refused as rebound, returned, refused as not known, or loaded; only a new one adds a row. |
| `CalendarRuns.KnownExactlyWhen` | src/leon_control_plane/calendar_writer.py:164-167 | Over every run an event is known iff it was read or a write of it confirmed, with no confirmed deletion since. |
| `CalendarRuns.RefusedAsUnknownExactlyWhen` | src/leon_control_plane/calendar_writer.py:164-167 | So a new update or delete is refused as not known iff that is not so. |
| `CalendarRuns.PickedExactlyWhen` | src/leon_control_plane/calendar_writer.py:254 | A reconciler selects exactly the unconfirmed rows not checked within a minute and fewer than five times. |
| `CalendarRuns.MessageExactlyWhen` | src/leon_control_plane/calendar_writer.py:269-276 | The owner hears of a completed request once, in the words of how it was established. |
| `CalendarService.CalendarService.OpenRow` | src/leon_control_plane/calendar_writer.py:151-171 | The row is refused, returned or loaded as the model's opening step says. |
| `CalendarService.CalendarService.PassGate` | src/leon_control_plane/calendar_writer.py:172-182 | Without write access the command waits; with it the row is marked before anything is sent. |
| `CalendarService.CalendarService.CheckVersion` | src/leon_control_plane/calendar_writer.py:192-199 | Goes on exactly with the version it read, and only if that is personal and owner-organised. |
| `CalendarService.CalendarService.Send` | src/leon_control_plane/calendar_writer.py:186-202 | Issues exactly one mutation; it counts as accepted iff it arrived and the reply came back. |
| `CalendarService.CalendarService.ReadBack` | src/leon_control_plane/calendar_writer.py:203-211 | Confirms iff the reply arrives and shows the requested state. |
| `CalendarService.CalendarService.Mutate` | src/leon_control_plane/calendar_writer.py:183-226 | From mark to readback: at most one mutation, confirmed iff nothing was lost, the event may be touched and the change shows. |
| `CalendarService.CalendarService.Execute` | src/leon_control_plane/calendar_writer.py:140-229 | The exact outcome of every call, as a function of the row, the gate, the calendar and the faults; and a run of the model. |
| `CalendarService.CalendarService.ClaimRow` | src/leon_control_plane/calendar_writer.py:283-286 | Claims a recovery iff nobody has checked or closed the row since it was selected. |
| `CalendarService.CalendarService.RecoverClaimed` | src/leon_control_plane/calendar_writer.py:287-308 | Completes a claimed row iff the readback arrives and shows the requested state; sends nothing. |
| `CalendarService.CalendarService.Recover` | src/leon_control_plane/calendar_writer.py:277-308 | Recovers iff the row is still open and the calendar shows the requested state; issues nothing and leaves the calendar alone. |
| `OwnerUpdates.AppendKeepsOrder` | src/leon_control_plane/owner_updates.py:31-32 | Stamping a message no earlier than the next time keeps times strictly increasing in a conversation, however the clock jumps. |
| `OwnerUpdates.NextTimeIsLeast` | src/leon_control_plane/owner_updates.py:31 | The stamp is the least time at or after the clock, after zero and after everything in the conversation. |
| `OwnerUpdates.PublishedExactlyWhen` | src/leon_control_plane/owner_updates.py:10-35 | A message is added iff its text is neither empty nor too long and its key is new; and it is that message. |
| `OwnerUpdates.PublishKeeps` | src/leon_control_plane/owner_updates.py:9-35 | Publishing keeps one message per event key, never rewrites one, and is idempotent. |
| `CodeTools.RunsAtMostOnce` | src/leon_control_plane/code_tools.py:152-170 | Per request id the executor starts at most once over any crashes, restarts and direct invocations. |
| `CodeTools.DoneMeansRanAndReported` | src/leon_control_plane/code_tools.py:194-226 | A done request ran exactly once, carries the recorded result, and with notices on has exactly one owner message. |
| `CodeTools.ReportsAreBacked` | src/leon_control_plane/code_tools.py:221-225 | A success message exists only for a recorded call result, derives its text from it, and is never doubled. |
| `CodeToolOwners.NoticesAreBacked` | src/leon_control_plane/code_tools.py:206-219 | A failure is told at most once per request, and only for one that has failed. |
| `CodeToolOwners.OwnResultExactlyWhen` | src/leon_control_plane/code_tools.py:202-226 | What ran under the id of a done request is what its call records; so the result is that of the request's own tool and arguments iff the call carries them. |
| `CodeToolOwners.OwnUnlessForeign` | src/leon_control_plane/code_tools.py:152-226 | Over every run: a done request shows its own result iff no direct invocation recorded the call under its id with another tool or other arguments. |
| `CodeToolOwners.RecordedBy` | src/leon_control_plane/code_tools.py:154-161 | The call of an id carries what the direct invocation that recorded it was given, or else what the request asks for. |
| `CodeToolOwners.ForeignResultIsReachable` | src/leon_control_plane/code_tools.py:202-210 | A run in which it does not, with notices on or off: taken, crashed, invoked directly with other arguments, recovered, done. |
| `CodeTools.FinalRequestsStay` | src/leon_control_plane/code_tools.py:199-225 | Done and failed requests and recorded call results never change again. |
| `CodeToolService.BatchExactly` | src/leon_control_plane/code_tools.py:200 | As many rows as are open, up to four, in the order running, ready, queued and then insertion; a row iff it is open and fewer than four open rows go before it. |
| `CodeToolService.FewRowsAreAllTaken` | src/leon_control_plane/code_tools.py:200 | Nothing is selected iff no row is open, and with up to four open rows every one is. |
| `CodeToolService.BatchIsOpen` | src/leon_control_plane/code_tools.py:200-201 | The selected batch holds no row twice and none that is closed. |
| `CodeToolService.ToolWorker.Add` | src/leon_control_plane/code_tools.py:173-191 | A request id is bound to its tool and arguments; a different request under it changes nothing. |
| `CodeToolService.ToolWorker.InvokeTool` | src/leon_control_plane/code_tools.py:152-170 | Returns the stored result of the same call, or the result of its one run; a recorded call is not run again. |
| `CodeToolService.ToolWorker.RunTool` | src/leon_control_plane/code_tools.py:162-170 | Saves the result iff the executor returned one within the size limit. |
| `CodeToolService.ToolWorker.Take` | src/leon_control_plane/code_tools.py:200-213 | A queued row is marked running before anything runs; the others are taken up where they were left. |
| `CodeToolService.ToolWorker.Obtain` | src/leon_control_plane/code_tools.py:202-215 | The exact result a row ends up with; nothing runs for a row that is not new. |
| `CodeToolService.ToolWorker.Block` | src/leon_control_plane/code_tools.py:206-209 | The row fails for good first, then the owner is told, exactly if notices are on. |
| `CodeToolService.ToolWorker.Report` | src/leon_control_plane/code_tools.py:221-225 | Result saved, owner told exactly if notices are on, row closed: these three steps in this order. |
| `CodeToolService.ToolWorker.ProcessRow` | src/leon_control_plane/code_tools.py:201-225 | One row ends done with its result or failed because it has none, the owner is told, and no other row or call changes. |
| `CodeToolService.ToolWorker.ProcessRows` | src/leon_control_plane/code_tools.py:201-226 | Every row given is concluded by what the tables held for it, and everything else is as before. |
| `CodeToolService.ToolWorker.ProcessPending` | src/leon_control_plane/code_tools.py:194-226 | Takes min(4, open rows); a row iff it is open and fewer than four go before it. Each is done with its saved, recorded or newly computed result, or failed because it has none, and the owner is told; nothing else is touched. |
| `GpuLease.PrecedesIsTotal` | src/leon_control_plane/gpu_lease.py:85 | The ranking with its tie-breaks is total, so there is at most one head. |
| `GpuLease.AgedRanksFirst` | src/leon_control_plane/gpu_lease.py:85 | A ticket ranks in the first class exactly once it has waited thirty seconds per class step. |
| `GpuLease.OvertakenIffClassOutweighsAge` | src/leon_control_plane/gpu_lease.py:85 | A later ticket is ever ahead of an earlier one iff the class difference exceeds the whole age steps between their arrivals. |
| `GpuLease.OrderMaySwing` | src/leon_control_plane/gpu_lease.py:85 | A pair of tickets whose order changes three times: pairwise order is not stable before full ageing. |
| `GpuLease.GrantsGoToTheHead` | src/leon_control_plane/gpu_lease.py:83-91 | Every grant takes a free lock and goes to the live ticket that precedes all live ones. |
| `GpuLease.GrantedExactlyWhen` | src/leon_control_plane/gpu_lease.py:83-91 | Over every step: a ticket is granted iff it polls a free lock, live, and precedes every other live ticket, whatever its age. |
| `GpuLease.LoneTicketIsGranted` | src/leon_control_plane/gpu_lease.py:83-91 | A lone live ticket gets a free lock on its first poll. |
| `GpuLease.LockChangesExactlyWhen` | src/leon_control_plane/gpu_lease.py:96-98 | A held lease ends exactly by its release or its holder's death. |
| `GpuLease.NoLaterGrantBeforeAged` | src/leon_control_plane/gpu_lease.py:69-103 | Once a live ticket has waited out its class, only tickets created before it are granted ahead of it. |
| `GpuLease.EqualClassIsNotOvertaken` | src/leon_control_plane/gpu_lease.py:69-103 | An earlier live ticket of equal or better class is never passed over. |
| `GpuLease.AgedHeadIsGranted` | src/leon_control_plane/gpu_lease.py:83-91 | A free lock goes to an aged live ticket as soon as no older live ticket is left. |
| `GpuLease.OvertakingIsBounded` | src/leon_control_plane/gpu_lease.py:69-103 | From full ageing on, grants to others plus older tickets still waiting never exceed the older tickets waiting then plus arrivals that committed late. |
| `GpuLease.PromptArrivalsNeverDelay` | src/leon_control_plane/gpu_lease.py:69-103 | With arrivals stamped as they commit, an aged ticket sees at most as many grants as there were older tickets. |
| `GpuScheduler.Scheduler.Prune` | src/leon_control_plane/gpu_lease.py:35-38 | The loop deletes exactly the expired and the dead rows. |
| `GpuScheduler.Scheduler.Enter` | src/leon_control_plane/gpu_lease.py:78-79 | The arrival step: the row with its class, creation time and expiry. |
| `GpuScheduler.ChatGoesAhead` | src/leon_control_plane/gpu_lease.py:85 | A chat or reply call that enters later goes ahead of a waiting shopper, background or coding call exactly while that has waited less than 30, 60 or 90 seconds. |
| `GpuScheduler.Scheduler.TryAcquire` | src/leon_control_plane/gpu_lease.py:80-91 | One turn of the retry loop acquires iff the lock is free and the ticket is live and precedes every other live row; it then holds the lock. |
| `GpuScheduler.Scheduler.Round` | src/leon_control_plane/gpu_lease.py:80-94 | One turn of the loop after whatever other processes did: acquires iff it is its turn in what it finds. |
| `GpuScheduler.Scheduler.Wait` | src/leon_control_plane/gpu_lease.py:80-94 | The loop ends acquired at the first poll at which it is its turn, or ungranted at the first check past the deadline. |
| `GpuScheduler.Scheduler.Acquire` | src/leon_control_plane/gpu_lease.py:70-103 | With a reading of the clock for the deadline, the entry, each poll and each check, and any steps of others in between: succeeds at the first poll at which it is its turn, and else fails at the first check past the deadline, withdrawn and never granted. |
| `GpuScheduler.Scheduler.Leave` | src/leon_control_plane/gpu_lease.py:96-98 | Releases the lock iff this ticket holds it. |
| `ThermalGuard.ReadyNeedsACoolRun` | src/leon_control_plane/thermal_guard.py:103-123 | Ready after a bad sample implies a later uninterrupted run of samples at most limit minus nine spanning thirty seconds, and nothing bad since. |
| `ThermalGuard.CoolingOutlivesReloads` | src/leon_control_plane/thermal_guard.py:96-101 | A guard that starts out cooling needs such a run too, whatever restarts intervene. |
| `ThermalGuard.CoolRunRecovers` | src/leon_control_plane/thermal_guard.py:114-121 | Conversely a cool run spanning the dwell time ends the cooling, if any service owed a restart comes back. |
| `ThermalGuard.OwedExactly` | src/leon_control_plane/thermal_guard.py:110-120 | Across reloads, a restart is owed iff some confirmed stop has no later recovery. |
| `ThermalGuard.StartOnlyWhileOwed` | src/leon_control_plane/thermal_guard.py:117-120 | A start is issued only while a confirmed stop is owed, and a ready guard owes none. |
| `ThermalGuard.SampleExactly` | src/leon_control_plane/thermal_guard.py:103-126 | What every sample does after any history: it cools iff hot; stops the service iff hot and active, confirmed iff the stop worked and it was seen inactive; starts it iff a cool run has lasted the dwell time and a restart is owed; and recovers iff that works or none is owed. |
| `ThermalGuard.SampleIsRecorded` | src/leon_control_plane/thermal_guard.py:106-133 | What it writes down: state, incident and reading, and for a change of state the message about it. |
| `ThermalGuard.ReloadExactly` | src/leon_control_plane/thermal_guard.py:96-101 | A restart keeps the state written and forgets only the run of cool samples. |
| `ThermalGuard.OwedExactlyBySamples` | src/leon_control_plane/thermal_guard.py:110-120 | A restart is owed iff some hot sample's stop worked, or the first file told of one, with no recovery since. |
| `ThermalGuard.CoolStartIsFirst` | src/leon_control_plane/thermal_guard.py:114-116 | The run of cool samples is the longest one ending now, within one process, of readings at least nine degrees below the limit. |
| `ThermalGuard.TransitionsAlternate` | src/leon_control_plane/thermal_guard.py:106-126 | Trips and recoveries strictly alternate over whole traces with reloads, and the guard cools exactly in between. |
| `ThermalGuard.FileIsLastSample` | src/leon_control_plane/thermal_guard.py:122-133 | The state file always describes the last sample taken. |
| `ThermalGuard.PendingIsTheLastTransition` | src/leon_control_plane/thermal_guard.py:178-182 | What is left to hand over is always the message of the last transition, unless it was handed over and no restart came before the next sample recorded that: none is lost, and one is repeated only then. |
| `ThermalGuard.PreflightIsFresh` | src/leon_control_plane/thermal_guard.py:70-81 | A local call starts only on a sample at most three seconds old and below the limit, or on such a file before the first sample. |
| `ThermalGuard.PreflightIsSafe` | src/leon_control_plane/thermal_guard.py:70-81 | And after any earlier bad sample only with a full cool run since, and nothing bad after it. |
| `ThermalGuard.PreflightExactlyWhen` | src/leon_control_plane/thermal_guard.py:70-81 | Once a sample was taken a call may start iff the guard is ready and that sample is good and at most three seconds old. |
| `ThermalProcess.GuardProcess.constructor` | src/leon_control_plane/thermal_guard.py:92-101 | A new process takes up exactly what the file says: cooling, debt, incident and pending event. |
| `ThermalProcess.GuardProcess.Step` | src/leon_control_plane/thermal_guard.py:103-133 | Fields, file, transition and service commands after one sample equal the step the theorems are about. |
| `ThermalProcess.GuardProcess.HandOver` | src/leon_control_plane/thermal_guard.py:179-182 | A delivered message is forgotten in memory, an undelivered one stays pending. |
| `ThermalProcess.GuardProcess.Serve` | src/leon_control_plane/thermal_guard.py:164-186 | The loop of sampling and handing over extends the very trace the theorems quantify over. |
| `Sorting.SortSorts` | src/leon_control_plane/planner_preview.py:134 | Sorting orders the elements and keeps each as often as it occurred. |
| `PlannerPreview.MergeBusyWindows` | src/leon_control_plane/planner_preview.py:128-134 | The clipped, sorted windows of all events, or an error naming an event that ends before it starts, iff there is one. |
| `PlannerPreview.SweepIsSound` | src/leon_control_plane/planner_preview.py:156-174 | The sweep's slots are ordered, disjoint, long enough, inside the window and meet no busy window. |
| `PlannerPreview.SweepIsComplete` | src/leon_control_plane/planner_preview.py:156-174 | Every free interval of the length asked lies in one of them. |
| `PlannerPreview.DaySlotsArePlaced` | src/leon_control_plane/planner_preview.py:151-174 | The slots of one work window are placed in it and meet no event. |
| `PlannerPreview.DaySlotsAreExact` | src/leon_control_plane/planner_preview.py:151-174 | An interval of the length asked lies in a slot of the day iff it lies in the window and meets no event. |
| `PlannerPreview.AllSlotsAreExact` | src/leon_control_plane/planner_preview.py:137-176 | Over the whole horizon: slots ordered, disjoint, free, within some day's hours; and an interval of the length asked lies in one iff it is free and within some day's hours. |
| `PlannerPreview.SlotIsUnique` | src/leon_control_plane/planner_preview.py:137-176 | No interval lies in two slots. |
| `PlannerPreview.SweepWindows` | src/leon_control_plane/planner_preview.py:156-174 | The cursor loop computes the sweep. |
| `PlannerPreview.SlotsOfDay` | src/leon_control_plane/planner_preview.py:151-174 | One day of the loop; it looks at the events only if the window is long enough. |
| `PlannerPreview.FreeSlots` | src/leon_control_plane/planner_preview.py:137-176 | Returns the first eight of the full list; it raises iff an event is malformed and some day is swept. |
| `PlannerPreview.AllPairsAreExact` | src/leon_control_plane/planner_preview.py:202-219 | Comparing all pairs lists each overlapping pair exactly once, in order, and nothing else. |
| `PlannerPreview.IntersectionIsExact` | src/leon_control_plane/planner_preview.py:215-216 | The span reported for a pair is never empty and is exactly the set of instants both occupy. |
| `PlannerPreview.BreakIsSafe` | src/leon_control_plane/planner_preview.py:207-209 | In a sorted list the early break loses no overlapping pair. |
| `PlannerPreview.ReachedMeansMeet` | src/leon_control_plane/planner_preview.py:208-210 | The inner overlap test is always true when it is reached. |
| `PlannerPreview.ConflictsWith` | src/leon_control_plane/planner_preview.py:207-218 | The inner loop with its break equals looking at every later event. |
| `PlannerPreview.ConflictsIn` | src/leon_control_plane/planner_preview.py:206-219 | The outer loop equals comparing all pairs. |
| `PlannerPreview.Conflicts` | src/leon_control_plane/planner_preview.py:202-219 | Equals comparing all pairs of the events in time order, and raises iff an event is malformed. |
| `GoogleReadonly.ParsePage` | src/leon_control_plane/google_readonly.py:273-274 | A page is parsed in order iff every event on it is well-formed. |
| `GoogleReadonly.ParsedExactlyWhen` | src/leon_control_plane/google_readonly.py:372-415 | An event is read exactly as sent: id, two times of one kind, both flags, nothing too large. |
| `GoogleReadonly.TakePage` | src/leon_control_plane/google_readonly.py:264-276 | One answered request adds exactly the next events up to the limit and knows whether some were cut off. |
| `GoogleReadonly.UpcomingEvents` | src/leon_control_plane/google_readonly.py:221-282 | The items are a prefix of the service's list determined by its pages; `truncated` is false only if the whole list was read, and true only if it was not or the service offered a token for nothing. |
| `GoogleReadonly.EndIsUnique` | src/leon_control_plane/google_readonly.py:263-281 | The pages a service sends determine where the reading ends. |
| `GoogleReadonly.OnePageIsEnough` | src/leon_control_plane/google_readonly.py:263-281 | A service that sends everything at once without a token is read completely in one page. |
| `CalendarPlanner.RoundedUp` | src/leon_control_plane/calendar_planner.py:69-70 | The first whole minute that is not in the past. |
| `CalendarPlanner.SearchIsAsAsked` | src/leon_control_plane/calendar_planner.py:39-47 | The search looks exactly in the hours asked of the days asked, from the first whole minute that is not past. |
| `CalendarPlanner.ItemsAreValidExactlyWhen` | src/leon_control_plane/calendar_planner.py:63-67 | The busy items read are valid iff every busy event of the calendar is. |
| `CalendarPlanner.BusyTimes` | src/leon_control_plane/calendar_planner.py:62-68 | All items that block, in order, or an error iff one of them ends before it starts. |
| `CalendarPlanner.SchoolPreview` | src/leon_control_plane/magister_agenda.py:31-45 | The first fifty lessons cut to the period, unavailable iff one of them is malformed, truncated iff there are more. |
| `CalendarPlanner.ReadCalendar` | src/leon_control_plane/calendar_planner.py:48-51 | A reading covers everything in the calendar that can meet the period, or is reported incomplete iff the paging ended with events unread or a token offered for nothing. |
| `CalendarPlanner.AddSchool` | src/leon_control_plane/calendar_planner.py:52-61 | The same with the school agenda: out of reach iff it is or one of the first fifty lessons is malformed, else incomplete iff there are more. |
| `CalendarPlanner.FreeIsReallyFree` | src/leon_control_plane/calendar_planner.py:62-72 | Inside the period, free of the items read is free of the whole calendar and the whole school agenda. |
| `CalendarPlanner.SlotsAmong` | src/leon_control_plane/calendar_planner.py:62-72 | Filter and sweep together give a truthful answer, or fail on a busy item that ends before it starts. |
| `CalendarPlanner.FindSlots` | src/leon_control_plane/calendar_planner.py:34-78 | In terms of the request, whatever the services send: each slot is at least as long as asked, in the hours asked of one day asked, from the first whole minute not past, and free in both full calendars; every such interval lies in one, unless eight come before it; and each other answer is given iff the very thing it names fell short, the calendar first. |
| `BrowserSends.LatestIsMaximal` | src/leon_control_plane/marketplace_browser_mcp.py:109-110 | The latest attempt is the maximum over all rows. |
| `BrowserSends.ClaimKeepsSpaced` | src/leon_control_plane/marketplace_browser_mcp.py:109-115 | A granted claim keeps the table spaced iff the table is empty or its stamp is a minute after the newest row. |
| `BrowserSends.SpacedExactlyWhen` | src/leon_control_plane/marketplace_browser_mcp.py:101-115 | Over any history and any clock, all attempts are a minute apart and distinct iff every granted claim was stamped a minute after the newest row it found. |
| `BrowserSends.AttemptsAreSpaced` | src/leon_control_plane/marketplace_browser_mcp.py:101-115 | So they are, however the clock jumps between calls, if no claim sets it back inside itself. |
| `BrowserSends.ClaimIsGranted` | src/leon_control_plane/marketplace_browser_mcp.py:109-115 | A claim is granted iff a minute has passed since the newest row and the message is new. |
| `BrowserSends.SetBackClockLosesSpacing` | src/leon_control_plane/marketplace_browser_mcp.py:110-113 | Two clock readings inside one claim: setting the clock back between them loses the spacing, so that assumption is needed. |
| `BrowserSends.BrowserBridge.ClaimSend` | src/leon_control_plane/marketplace_browser_mcp.py:101-115 | The exact refusal or the one row added; the table stays spaced. |
| `ReplySchedule.ReplyDueExactlyWhen` | src/leon_control_plane/shopper_schedule.py:9-26 | The answer time is exactly the earliest end of a wait that may begin: at receipt if it ends within the hours of that day, or at any later moment from which it fits into the hours. |
| `ReplySchedule.ReplyIsTimely` | src/leon_control_plane/shopper_schedule.py:9-26 | For all hours and times: due within some day's opening hours, at least fifteen minutes after receipt, at most forty-five after the next opening. |
| `ReplySchedule.ReplyIsPrompt` | src/leon_control_plane/shopper_schedule.py:19-25 | From no moment at which the wait would fit would the answer come sooner. |
| `ReplySchedule.NextOpeningIsNext` | src/leon_control_plane/shopper_schedule.py:20-25 | The next opening is an opening, is not past, and none lies between. |
| `ReplySchedule.OvertakesExactlyWhen` | src/leon_control_plane/shopper_schedule.py:17-26 | For two messages with their own digests, exactly when the later is answered first: by their delays and the time between them, an opening standing for the receipt of one that is put off to it. |
| `ReplySchedule.OvertakenByANight` | src/leon_control_plane/shopper_schedule.py:17-26 | A message is overtaken by more than 45 minutes iff it alone is put off overnight. |
| `ReplySchedule.EqualDelaysKeepOrderUnlessPutOff` | src/leon_control_plane/shopper_schedule.py:19-26 | With equal delays the later is answered first iff it came just before an opening its wait ends after, and the earlier one had been put off to it. |
| `ReplySchedule.LaterMessageMayBeAnsweredFirst` | src/leon_control_plane/shopper_schedule.py:17-19 | Received at 10:00 and due 10:45, received at 10:01 and due 10:16. |
| `ShopperContacts.TwoContactsADay` | src/leon_control_plane/shopper_service.py:324-329 | Over all watches, workers and crashes every half-open 24-hour window holds at most two claims. |
| `ShopperContacts.LimitHoldsExactlyWhen` | src/leon_control_plane/shopper_service.py:324-333 | Over any run, whatever the clock does, no day holds more than two claims iff every granted claim was stamped where no two earlier ones share a day with it. |
| `ShopperContacts.SetBackClockAllowsThree` | src/leon_control_plane/shopper_service.py:324-333 | A clock set back by a second inside one claim is enough for three in a day. |
| `ShopperContacts.FourInAClosedWindow` | src/leon_control_plane/shopper_service.py:327 | A window closed at both ends never holds more than four. |
| `ShopperContacts.ClosedWindowMayHoldFour` | src/leon_control_plane/shopper_service.py:327 | And it can hold four, so the half-open bound is the one the code gives. |
| `ShopperContacts.ClaimIsGranted` | src/leon_control_plane/shopper_service.py:324-329 | After any steps, whatever the clock does, an idle worker's claim is granted iff the listing was never claimed by anyone and no two claims carry a stamp of the last 24 hours; granted it is the newest row and its message has not been sent, refused it changes nothing. |
| `ShopperContacts.ContactedAtMostOnce` | src/leon_control_plane/shopper_service.py:310-338 | Whatever the clock does, each listing is claimed at most once ever, nothing is sent without its claim, nothing is sent twice. |
| `ShopperContacts.ClaimsAreForever` | src/leon_control_plane/shopper_service.py:301-338 | No step drops, re-stamps or re-assigns a claim. |
| `ShopperContacts.StatusExactly` | src/leon_control_plane/shopper_service.py:301-356 | What every other step does: an outcome is recorded for the listing messaged, a hold stops the watch's latest contact, a confirmation its listing; nothing else changes. |
| `ShopperReplies.OnePendingPerContact` | src/leon_control_plane/shopper_service.py:386-391 | A contact never has two replies pending; a pending one answers a question and is due in hours, fifteen minutes after it was first read. |
| `ShopperReplies.LeftPendingIsFinal` | src/leon_control_plane/shopper_service.py:386-416 | A reply that left pending never returns to it; a held or superseded one never changes and is never sent. |
| `ShopperReplies.AnsweredAtMostOnce` | src/leon_control_plane/shopper_service.py:392-416 | Each reading is answered at most once over restarts, only after its claim and only if the conversation was still the one decided on; the decision is at least fifteen minutes after the reading and within hours. |
| `ShopperReplies.ClickInHoursExactlyWhen` | src/leon_control_plane/shopper_service.py:386-414 | The click itself, later than the decision: rested, too, and up to the next opening within hours iff made before the day's closing. |
| `ShopperReplies.ClickMayBeLate` | src/leon_control_plane/shopper_service.py:394-414 | A run that decides at 22:59 and clicks at 23:00. |
| `ShopperReplies.DueReplyIsAnswered` | src/leon_control_plane/shopper_service.py:364-416 | An idle worker that finds a due reply still standing sends it and records the outcome. |
| `ShopperReplies.ObservedExactly` | src/leon_control_plane/shopper_service.py:377-398 | What a reading does to the table, and whether the worker goes on to decide or to put off. |
| `ShopperReplies.RescheduledExactly` | src/leon_control_plane/shopper_service.py:393-398 | A reply still waiting gets a new due time from now; nothing else changes. |
| `ShopperReplies.HeldExactly` | src/leon_control_plane/shopper_service.py:301-308 | A hold stops exactly the contact's waiting replies. |
| `ShopperReplies.ScheduleIsTimely` | src/leon_control_plane/shopper_service.py:390-397 | The configured schedule meets what the reply lifecycle relies on. |
| `ShopperRuns.OneRunAtATime` | src/leon_control_plane/shopper_service.py:217-227 | In every reachable state a watch has at most one running search, and a search starts at least a minute after every earlier one of its watch with a positive start time, however the clock jumps. |
| `ShopperRuns.StartsWhenFree` | src/leon_control_plane/shopper_service.py:208-233 | With positive start times, a due, enabled watch starts a new search iff none has been running for under five minutes and none started within the last minute. |
| `ShopperRuns.StartSupersedes` | src/leon_control_plane/shopper_service.py:217-226 | A new search leaves no earlier one of its watch running, and finds those with a positive start time a minute old. |
| `ShopperRuns.StartExactly` | src/leon_control_plane/shopper_service.py:208-233 | What a start comes to in any reachable state, each answer with its condition; only a new run changes the tables, and the next search is then due in a week. |
| `ShopperRuns.FinishExactly` | src/leon_control_plane/shopper_service.py:262-275 | The outcome is recorded, and unless some source worked the watch is due again in an hour. |
| `ShopperService.ShopperService.Start` | src/leon_control_plane/shopper_service.py:208-233 | The exact outcome; a refusal changes nothing, so an old search is interrupted only when a new one starts. |
| `ShopperService.ShopperService.Finish` | src/leon_control_plane/shopper_service.py:267-270 | Records the outcome of that search and, without any working source, retries in an hour. |
| `ShopperService.ShopperService.ClaimContact` | src/leon_control_plane/shopper_service.py:324-329 | The claiming transaction: exact refusals, one new row otherwise. |
| `ShopperService.ShopperService.SendContact` | src/leon_control_plane/shopper_service.py:330-333 | One message for the claimed listing; an exception leaves the claim as evidence. |
| `ShopperService.ShopperService.ContactSeller` | src/leon_control_plane/shopper_service.py:324-333 | Claims and then messages iff the day has room at the check. |
| `ShopperService.ShopperService.AutonomousContact` | src/leon_control_plane/shopper_service.py:310-338 | The exact effect: one claim and one message for the chosen new listing iff both checks find room, otherwise nothing. |
| `ShopperService.ShopperService.Hold` | src/leon_control_plane/shopper_service.py:301-308 | Holds exactly the watch's latest contact and its pending replies. |
| `ShopperService.ShopperService.Observe` | src/leon_control_plane/shopper_service.py:374-395 | The transaction after a reading, and exactly whether to decide, put off or leave it. |
| `ShopperService.ShopperService.Reschedule` | src/leon_control_plane/shopper_service.py:394-398 | Outside the hours a still pending reply gets a new due time. |
| `ShopperService.ShopperService.ClaimReply` | src/leon_control_plane/shopper_service.py:402-410 | Claims iff the conversation is unchanged and the reply still pending. |
| `ShopperService.ShopperService.SendReply` | src/leon_control_plane/shopper_service.py:411-416 | One click for a claimed reply, none if the offer is ready for the owner, and its recorded outcome. |
| `ShopperService.ShopperService.Answer` | src/leon_control_plane/shopper_service.py:400-416 | Claims and answers iff the conversation is unchanged and the reply still pending; otherwise changes nothing. |
| `ShopperService.ShopperService.FollowContact` | src/leon_control_plane/shopper_service.py:364-420 | One contact's turn: the reading, then put off, claimed and answered with one click or none, or left alone, exactly when each applies; and these are steps of the model. |
| `ShopperService.FollowedExactly` | src/leon_control_plane/shopper_service.py:359-363 | A pass follows the first eight contacts that are confirmed, enabled and, if only due ones are asked for, have a waiting reply that is due; each in its place. |
| `ShopperService.UnknownConcat` | src/leon_control_plane/shopper_service.py:313-316 | The candidates are the ranked listings never contacted, in order. |
| `ShopperService.ShopperService.FollowUp` | src/leon_control_plane/shopper_service.py:359-420 | Each of them has its turn, one after the other, and replies only move on. |
| `ChatPrompt.Included` | src/leon_control_plane/chat_api.py:169-186 | Returns the longest suffix of the turns that fits the byte bound and its prompt; fails iff the message alone does not fit. |
| `ChatPrompt.PackIsLongest` | src/leon_control_plane/chat_api.py:174-184 | The packing used by the submission model is that longest suffix. |
| `ChatRepeats.PackedExactlyWhen` | src/leon_control_plane/chat_api.py:174-184 | What is packed is exactly the longest end that fits. |
| `ChatPrompt.SuffixFits` | src/leon_control_plane/chat_api.py:177-182 | A suffix fits iff it is no longer than the longest. |
| `ChatPrompt.LongestSuffixIsUnique` | src/leon_control_plane/chat_api.py:177-182 | There is only one. |
| `ChatPrompt.AcceptedMessageFits` | src/leon_control_plane/chat_api.py:183-184 | A message that passed the length check always leaves room for itself, with any stored memory: the error is unreachable. |
| `ChatPrompt.MemoryIsMentioned` | src/leon_control_plane/chat_api.py:211 | A prompt with stored memory always shows its header. |
| `ChatRuns.EnqueuedIsWhatWasShown` | src/leon_control_plane/chat_api.py:220-240 | Given a collision-free digest, what a turn has on the queue is the prompt, limits and provider a preview with its digest showed. |
| `ChatRuns.MemoryStaysOnTheLocalModel` | src/leon_control_plane/chat_api.py:278-281 | A prompt quoting stored memory is only shown for, and queued for, the local model. |
| `ChatServes.PreviewedExactlyWhen` | src/leon_control_plane/chat_api.py:198-218 | What a preview shows: as many last turns as fit in 4096 bytes, that prompt for the local model iff it is sensitive or mentions memory and else for the route in force, if the queue would take it, and its digest. |
| `ChatServes.SensitiveStaysLocal` | src/leon_control_plane/chat_api.py:207-212 | What is sensitive or quotes memory is only quoted for the local model. |
| `ChatServes.TurnIsStored` | src/leon_control_plane/chat_api.py:288-302 | A new turn stores the message at the least possible time, the pending reply right behind it with all it was approved with, and the next revision. |
| `ChatPrompt.BulletsConcat` | src/leon_control_plane/chat_api.py:53 | Retrieved notes are listed in order, one bullet and one line each. |
| `ChatServes.AnswersExactly` | src/leon_control_plane/chat_api.py:316-336 | What the action runner, the queue and background work put into a conversation. |
| `ChatServes.OneRowExactly` | src/leon_control_plane/chat_api.py:171-173 | The conversation is what the owner said and what was completed or published, by conversation. |
| `ChatRuns.StoredUnderTheCurrentPrompt` | src/leon_control_plane/chat_api.py:265-299 | A new turn is stored iff its digest is that of what would be sent now, which is then what every preview with that digest showed. |
| `ChatRuns.StalePreviewIsRefused` | src/leon_control_plane/chat_api.py:284-287 | A preview whose prompt is no longer the current one is refused. |
| `ChatRuns.RequestIsBound` | src/leon_control_plane/chat_api.py:251-258 | A request id belongs to one turn for good: a repeat stores nothing and succeeds iff it is the same turn. |
| `ChatRuns.TurnsAreForever` | src/leon_control_plane/chat_api.py:288-302 | Rows stay, approvals and attached jobs do not change, and times strictly increase in each conversation. |
| `ChatRuns.RecoveryChangesNoVerdict` | src/leon_control_plane/chat_api.py:262-264 | Recovering orphans in between changes no prompt and no digest. |
| `ChatRuns.RoomForEveryMessage` | src/leon_control_plane/chat_api.py:183-184 | Neither preview nor submission ever fails for want of room. |
| `ChatRuns.HistoryAfterTurn` | src/leon_control_plane/chat_api.py:171-174 | The next prompt draws on the new message but not on the pending reply. |
| `ChatRepeats.PackedAgain` | src/leon_control_plane/chat_api.py:174-184 | Once a message is a turn itself, its next prompt is the first one without its oldest turns, followed by the message; none are dropped iff all still fit. |
| `ChatRepeats.SamePromptExactlyWhen` | src/leon_control_plane/chat_api.py:174-185 | The two prompts are the same text iff dropping in front and adding behind give the same text; then no further copy fits and what is dropped is as long as the message's line. |
| `ChatRepeats.FullOfCopiesPacksAgain` | src/leon_control_plane/chat_api.py:177-182 | A prompt of nothing but copies of the message, without room for another, is the same the next time. |
| `ChatRepeats.SamePromptOfLines` | src/leon_control_plane/chat_api.py:177-185 | For single-line turns that is the only way: same prompt iff the first is full of copies of the message. |
| `ChatRepeats.SamePromptOfAnyLines` | src/leon_control_plane/chat_api.py:171-185 | For any two conversations, messages and notes of single lines: same prompt iff the same memory is quoted and the turns the first showed are the longest fitting end of the second. |
| `ChatRepeats.LongerEndIsPacked` | src/leon_control_plane/chat_api.py:174-184 | Every end of the conversation that fits makes a prompt no longer than the packed one. |
| `ChatServes.SameApprovalExactlyWhen` | src/leon_control_plane/chat_api.py:276-287 | Two submissions, in any states and contexts, have one approval iff they send one text with the same limits and provider and nothing objects. |
| `ChatServes.ServesAgainExactlyWhen` | src/leon_control_plane/chat_api.py:242-304 | Given a collision-free digest: after any steps, any new request under the digest of a stored turn, with any message in any conversation and context, is accepted iff it would send the approved text on the approved terms. |
| `ChatServes.SameMessageServesAgainExactlyWhen` | src/leon_control_plane/chat_api.py:242-304 | For the same message, with any notes retrieved: iff the prompt packed then is the approved text. |
| `ChatServes.LinesServeAgainExactlyWhen` | src/leon_control_plane/chat_api.py:242-304 | For single lines: iff the memory and terms are the same and the turns the preview showed are the longest fitting end of the conversation as it then stands, the message last. |
| `ChatServes.RefusedWhileMoreFits` | src/leon_control_plane/chat_api.py:242-304 | After any steps: refused while some end of the conversation as it stands, with the message, fits and makes a longer prompt than the approved one. |
| `ChatServes.RefusedWhileAllFits` | src/leon_control_plane/chat_api.py:242-304 | So refused while the turns shown, everything completed or said since, and the message all fit, unless something said was taken back. |
| `ChatServes.ApprovedFrom` | src/leon_control_plane/chat_api.py:171-185 | The turns an approved prompt shows are all that was said from some row on. |
| `ChatServes.ServesTwiceExactlyWhen` | src/leon_control_plane/chat_api.py:265-304 | Right after the first turn: accepted iff the prompt packed after the message has become a turn is the prompt packed before. |
| `ChatServes.RefusedWhileItFits` | src/leon_control_plane/chat_api.py:265-304 | At that moment: refused while the turns of the preview and one more copy of the message fit. |
| `ChatServes.LinesServeTwiceExactlyWhen` | src/leon_control_plane/chat_api.py:265-304 | At that moment, in a conversation of single lines: accepted iff the preview showed nothing but copies of the message and one more would not have fitted. |
| `ChatServes.LongMessageServesTwice` | src/leon_control_plane/chat_api.py:265-304 | A concrete run: one preview of a message of 2000 bytes in a new conversation, two requests stored under its digest. |
| `ChatServes.RepeatedMessageServesTwice` | src/leon_control_plane/chat_api.py:265-304 | Another: a message of 1500 bytes sent once, previewed again with both copies, and stored twice under that second digest. |
| `ChatServes.LongReplyServesAgain` | src/leon_control_plane/chat_api.py:265-304 | Another: a message of 1000 bytes whose preview does not serve again right away, but does once its reply of 3000 bytes is complete. |
| `ChatServes.OtherMessageIsServed` | src/leon_control_plane/chat_api.py:74-82 | Another: a preview of one conversation serves for a different message in another conversation, one that quotes both turns. |
| `ChatService.ChatService.Quoted` | src/leon_control_plane/chat_api.py:203-218 | What a preview computes from the tables. |
| `ChatService.ChatService.Recover` | src/leon_control_plane/chat_api.py:220-240 | Attaches exactly the job asked for, or the queue will not have it. |
| `ChatService.ChatService.RecoverOrphans` | src/leon_control_plane/chat_api.py:192-196 | All replies of the conversation are placed, or some job is blocked; nothing said or approved changes. |
| `ChatService.ChatService.Preview` | src/leon_control_plane/chat_api.py:198-218 | Shows exactly what would be sent now, or says why not. |
| `ChatService.ChatService.Store` | src/leon_control_plane/chat_api.py:265-304 | The writing transaction: the bound row, one new turn, or the exact refusal. |
| `ChatService.ChatService.Insert` | src/leon_control_plane/chat_api.py:288-302 | The two rows of a turn, their times, and the next revision. |
| `ChatService.ChatService.Submit` | src/leon_control_plane/chat_api.py:242-309 | On success the request's turn is stored and the queue holds exactly its approval; a refusal is the transaction's own; a repeat stores nothing more. |

## Left out

- Network, browser, subprocess, container and file-system code: replaced by arbitrary answers, losses and delays.
- `store.py` and `work_queue.py`: a job's lease may move, expire or be retaken at any step with any token; tasks are opaque ids and their status changes are not modelled, except that one that raises ends the worker like a crash.
- SHA-256 and JSON encoding: not computed. Integrity checks on stored digests always pass, because the tables are only changed by the modelled code. The browser's and the calendar's fingerprints stand for what they digest; a calendar command stands for its arguments and the owner's wording together.
- Text: titles, notices, redaction, secret scanning, sensitivity rules, routing patterns and memory retrieval. Which notes are retrieved, whether a text is accepted or sensitive, and which provider is routed to are parameters.
- Floating point: clock values are whole numbers, so the microsecond added to chat times is exact.
- Time zones: daylight saving and the ISO form of a day window (calendar_planner.py:14-18) are abstracted; a clock time is a minute of a 24-hour day.
- Local model rows: they may be sent again and reset by a stale worker (model_work.py:229-233), so the frozen-row and at-most-once claims are about external rows.
- The calendar status `failed`, which the code reads but never writes.
- Calendar changes between two page requests: the service's list is fixed while it is read.
- `gmail_metadata`: the same paging loop as `upcoming_events`, over message ids.
- Failure notices of generated tools: the status is written before the notice, so a notice can be lost; at most one, and only for a failed request, is proved (`CodeToolOwners.NoticesAreBacked`), not exactly one.
- Thermal guard: one step is atomic and the state file intact; the preflight reads the file once; the incident's task and the text of its message are not modelled.
- The GPU lease's `waiting` and `busy` views, which only read.
- Shopper: the search itself, shortlists, watch specifications, the limit of eight watches, and prompts. A contact's `on_hold` status may be overwritten by a later confirmation (shopper_service.py:356), so it is not claimed to be final.
- Chat: what an action turn does is not modelled; the action runner and the queue answer with any status and text at any time; messages of background work enter with their time.
- Decision tables and manifest validators: finite case splits without further structure.
- ShopperReplies.AnsweredAtMostOnce: the conversation is compared at the second reading, immediately before the claim, as in the code; it may still change before the click. The times are those of the decision.
- CalendarRuns.RecoveryReadsAreBounded: five is the bound only while no reconciler's clock is set back between selecting a row and claiming it; what it takes is exact in `CalendarRuns.CountsWithinExactlyWhen`.
- ShopperContacts.TwoContactsADay: assumes that within one claim the stamp is not before the check, which the code's two clock readings give unless the clock is set back between them; what it takes otherwise is exact in `ShopperContacts.LimitHoldsExactlyWhen`.
