/**
 The shopper as one process runs it (shopper_service.py): tables rewritten in place. What browser, model and
 clock answer are parameters; None is an exception. Each method performs steps of the interleaving models, so an
 uninterrupted call is a run of them.
*/
module ShopperService {
  import opened Wrappers
  import C = ShopperContacts
  import R = ShopperReplies
  import S = ShopperRuns
  import opened ReplySchedule

  type Url = string

  datatype Outcome = Waiting | NeedsOwner | Reported(status: string)

  const FOLLOWED := 8

  /** What one contact's turn brings: the reading, the decision, the second reading, and the click. */
  datatype Turn = Turn(
    conversation: Option<Url>, rows: Option<seq<R.Row>>, now: int,
    ready: Option<bool>, again: Option<seq<R.Row>>, outcome: Option<string>, clickedAt: int)

  // ----- runs grow by steps -----

  lemma ContactStep(sys: C.System, step: C.Step)
    requires C.Reachable(sys) && C.Steady(step)
    ensures C.Reachable(C.Exec(sys, step))
  {
    var steps: seq<C.Step> :| (forall s <- steps :: C.Steady(s)) && sys == C.Run(C.INITIAL, steps);
    var longer := steps + [step];
    assert longer[..|longer| - 1] == steps && forall s <- longer :: C.Steady(s);
    assert C.Run(C.INITIAL, longer) == C.Exec(sys, step);
  }

  lemma SearchStep(tables: S.Tables, step: S.Step)
    requires S.Reachable(tables)
    ensures S.Reachable(S.Exec(tables, step))
  {
    var steps :| tables == S.RunSteps(S.INITIAL, steps);
    var longer := steps + [step];
    assert longer[..|longer| - 1] == steps;
    assert S.RunSteps(S.INITIAL, longer) == S.Exec(tables, step);
  }

  // ----- what is selected -----

  /** The listings not contacted before, in the order they were ranked. */
  function Unknown(contacts: seq<C.Contact>, matches: seq<Url>): (candidates: seq<Url>)
    ensures forall url :: url in candidates <==> url in matches && !C.Known(contacts, url)
  {
    if matches == [] then []
    else
      Unknown(contacts, matches[..|matches| - 1])
      + if C.Known(contacts, matches[|matches| - 1]) then [] else [matches[|matches| - 1]]
  }

  /** They keep their order, and each comes as often as it was ranked. */
  lemma {:induction false} UnknownConcat(contacts: seq<C.Contact>, a: seq<Url>, b: seq<Url>)
    ensures Unknown(contacts, a + b) == Unknown(contacts, a) + Unknown(contacts, b)
    ensures |a| == 1 ==> Unknown(contacts, a) == if C.Known(contacts, a[0]) then [] else a
    decreases |b|
  {
    if b == [] {
      assert a + b == a;
    } else {
      assert (a + b)[..|a + b| - 1] == a + b[..|b| - 1];
      UnknownConcat(contacts, a, b[..|b| - 1]);
    }
  }

  /** A contact to follow: confirmed, its watch enabled, and on a due-only pass with a waiting reply that is due. */
  ghost predicate ToFollow(c: C.Contact, replies: map<R.Key, R.Reply>, enabled: set<C.Watch>, due: Option<int>) {
    && c.status == "confirmed" && c.watch in enabled
    && (due.Some? ==> exists key <- replies ::
          replies[key].contact == c.url && replies[key].status == R.Pending && replies[key].due <= due.value)
  }

  ghost function CountToFollow(
    contacts: seq<C.Contact>, replies: map<R.Key, R.Reply>, enabled: set<C.Watch>, due: Option<int>): nat
  {
    if contacts == [] then 0
    else
      CountToFollow(contacts[..|contacts| - 1], replies, enabled, due)
      + if ToFollow(contacts[|contacts| - 1], replies, enabled, due) then 1 else 0
  }

  /** The contacts a pass follows are the first eight to follow, each in its place. */
  lemma {:induction false} FollowedExactly(
    contacts: seq<C.Contact>, replies: map<R.Key, R.Reply>, enabled: set<C.Watch>, due: Option<int>)
    ensures var urls, all := Followed(contacts, replies, enabled, due), CountToFollow(contacts, replies, enabled, due);
      && |urls| == (if all < 8 then all else 8)
      && forall k | 0 <= k < |contacts| && ToFollow(contacts[k], replies, enabled, due) ::
           var place := CountToFollow(contacts[..k], replies, enabled, due);
           place < all && (place < 8 ==> urls[place] == contacts[k].url)
  {
    if contacts != [] {
      var n := |contacts| - 1;
      FollowedExactly(contacts[..n], replies, enabled, due);
      forall k | 0 <= k < n ensures contacts[..n][k] == contacts[k] && contacts[..n][..k] == contacts[..k] {
      }
    }
  }

  /** The first eight confirmed contacts of enabled watches; on a due-only pass, those with a reply that is due. */
  function Followed(contacts: seq<C.Contact>, replies: map<R.Key, R.Reply>, enabled: set<C.Watch>, due: Option<int>)
    : (urls: seq<Url>)
    ensures |urls| <= FOLLOWED
  {
    if contacts == [] then []
    else
      var earlier := Followed(contacts[..|contacts| - 1], replies, enabled, due);
      var c := contacts[|contacts| - 1];
      if |earlier| < FOLLOWED && c.status == "confirmed" && c.watch in enabled
         && (due.Some? ==> exists key <- replies ::
               replies[key].contact == c.url && replies[key].status == R.Pending && replies[key].due <= due.value)
      then earlier + [c.url] else earlier
  }

  // ----- the steps of one pass -----

  function SendSteps(worker: R.Worker, ready: bool, outcome: Option<string>, clickedAt: int): seq<R.Step> {
    [R.Sends(R.Answer(worker, ready, if outcome.Some? then outcome.value else "", clickedAt)),
     if outcome.Some? then R.Sends(R.Record(worker)) else R.Reading(R.Crash(worker))]
  }

  function AnswerSteps(
    sys: R.System, worker: R.Worker, key: R.Key, again: seq<R.Row>, ready: bool, outcome: Option<string>, clickedAt: int)
    : seq<R.Step>
  {
    [R.Sends(R.Claim(worker, again))]
    + if again == key.rows && R.IsPending(sys, key) then SendSteps(worker, ready, outcome, clickedAt) else []
  }

  /** Observe, then reschedule, answer, give up or leave it. */
  function TurnSteps(sys: R.System, worker: R.Worker, contact: Url, turn: Turn): seq<R.Step> {
    if turn.conversation.None? || turn.rows.None? then []
    else
      var key := R.Key(turn.conversation.value, turn.rows.value);
      var observe := R.Reading(R.Observe(worker, contact, key, turn.now));
      var seen := R.Exec(sys, observe);
      [observe] + (
        if worker !in seen.flights then []
        else if seen.flights[worker].Late? then [R.Reading(R.Reschedule(worker))]
        else if turn.ready.Some? && turn.again.Some?
        then AnswerSteps(seen, worker, key, turn.again.value, turn.ready.value, turn.outcome, turn.clickedAt)
        else [R.Reading(R.Crash(worker))])
  }

  function PassSteps(sys: R.System, worker: R.Worker, urls: seq<Url>, turns: Url -> Turn): seq<R.Step> {
    if urls == [] then []
    else
      var earlier := PassSteps(sys, worker, urls[..|urls| - 1], turns);
      var url := urls[|urls| - 1];
      earlier + TurnSteps(R.Run(sys, earlier), worker, url, turns(url))
  }

  // ----- what one contact's turn comes to -----

  predicate InOpenHours(now: int) {
    28_800 <= now % 86_400 < 82_800
  }

  /** A reply that still waits is scheduled anew. */
  ghost function PutOff(digest: R.Key -> nat, replies: map<R.Key, R.Reply>, key: R.Key, now: int): map<R.Key, R.Reply> {
    if key in replies && replies[key].status == R.Pending
    then replies[key := replies[key].(due := ReplyDue(now, digest(key), 8, 23).value)] else replies
  }

  /**
   After the reading: a reply that is due outside the hours is put off. One due within them is claimed and answered if
   a decision was made and the second reading is the same; it then keeps the outcome, or the mark of the attempt, and
   one message is clicked unless the offer is ready for the owner. Nothing else happens.
  */
  ghost predicate Concluded(
    digest: R.Key -> nat, read: map<R.Key, R.Reply>, after: map<R.Key, R.Reply>, sent: seq<R.Sending>, clicked: seq<R.Sending>,
    key: R.Key, turn: Turn)
  {
    if !R.Due(read, key, turn.now) then after == read && clicked == sent
    else if !InOpenHours(turn.now) then after == PutOff(digest, read, key, turn.now) && clicked == sent
    else if turn.ready.Some? && turn.again == Some(key.rows) then
      && after == read[key := read[key].(status := if turn.outcome.Some? then R.Reported(turn.outcome.value) else R.Attempted)]
      && clicked == (if turn.ready.value then sent else sent + [R.Sending(key, turn.now, key.rows, turn.clickedAt)])
    else after == read && clicked == sent
  }

  /** A contact without a conversation is left alone; otherwise it is read, and the reading concluded. */
  ghost predicate TurnDone(digest: R.Key -> nat, before: R.System, after: R.System, contact: Url, turn: Turn) {
    if turn.conversation.None? || turn.rows.None? then after == before
    else
      var key := R.Key(turn.conversation.value, turn.rows.value);
      && after.flights == before.flights
      && exists read ::
           && R.ReadingDone(digest, before.replies, read, contact, key, turn.now)
           && Concluded(digest, read, after.replies, before.sent, after.sent, key, turn)
  }

  /** One state before each contact's turn and one after the last, each turn done. */
  ghost predicate TurnsDone(digest: R.Key -> nat, states: seq<R.System>, urls: seq<Url>, turns: Url -> Turn) {
    && |states| == |urls| + 1
    && forall k | 0 <= k < |urls| :: TurnDone(digest, states[k], states[k + 1], urls[k], turns(urls[k]))
  }

  /** A pass over some contacts: its steps are the model's, and each turn is done. */
  ghost predicate Passed(
    digest: R.Key -> nat, start: R.System, now: R.System, worker: R.Worker, urls: seq<Url>, turns: Url -> Turn,
    steps: seq<R.Step>, states: seq<R.System>)
  {
    && now == R.Run(start, steps) && steps == PassSteps(start, worker, urls, turns)
    && TurnsDone(digest, states, urls, turns) && states[0] == start && states[|urls|] == now
  }

  lemma OneMoreTurn(
    digest: R.Key -> nat, start: R.System, now: R.System, worker: R.Worker, urls: seq<Url>, turns: Url -> Turn,
    steps: seq<R.Step>, states: seq<R.System>, url: Url, more: seq<R.Step>, after: R.System)
    requires Passed(digest, start, now, worker, urls, turns, steps, states)
    requires more == TurnSteps(now, worker, url, turns(url)) && after == R.Run(now, more)
    requires TurnDone(digest, now, after, url, turns(url))
    ensures Passed(digest, start, after, worker, urls + [url], turns, steps + more, states + [after])
  {
    R.RunConcat(start, steps, more);
    assert (urls + [url])[..|urls|] == urls;
  }

  class ShopperService {
    const digest: R.Key -> nat
    var watches: map<S.Watch, S.Schedule>
    var runs: seq<S.Run>
    var contacts: seq<C.Contact>
    var replies: map<R.Key, R.Reply>
    ghost var contacting: C.System
    ghost var answering: R.System

    ghost predicate Valid()
      reads this
    {
      && S.Reachable(S.Tables(watches, runs))
      && C.Reachable(contacting) && contacting.contacts == contacts
      && R.Reachable(digest, answering) && answering.replies == replies
    }

    constructor (digest: R.Key -> nat)
      ensures Valid() && watches == map[] && runs == [] && contacts == [] && replies == map[]
    {
      this.digest, watches, runs, contacts, replies := digest, map[], [], [], map[];
      contacting, answering := C.INITIAL, R.Initial(digest);
      new;
      assert S.RunSteps(S.INITIAL, []) == S.INITIAL;
      assert C.Run(C.INITIAL, []) == C.INITIAL && R.Run(R.Initial(digest), []) == R.Initial(digest);
    }

    // ----- searches -----

    /** `start`, up to the search itself: a refusal changes nothing. */
    method Start(watch: S.Watch, now: int, dueOnly: bool) returns (r: Result<S.Started, S.Error>)
      requires Valid()
      modifies this`watches, this`runs
      ensures Valid()
      ensures match S.StartTx(S.Tables(old(watches), old(runs)), watch, now, dueOnly)
              case Ok((next, started)) => r == Ok(started) && S.Tables(watches, runs) == next
              case Err(error) => r == Err(error) && watches == old(watches) && runs == old(runs)
    {
      SearchStep(S.Tables(watches, runs), S.Start(watch, now, dueOnly));
      if watch !in watches || !watches[watch].enabled {
        return Err(S.MissingOrDisabled);
      }
      if dueOnly && watches[watch].nextRun > now {
        return Ok(S.NotDue);
      }
      var active := S.LatestActive(runs, watch);
      if active.Some? && now - runs[active.value].startedAt < S.STALE {
        return Ok(S.StillRunning(active.value));
      }
      if S.Recent(S.LatestStart(runs, watch), now) {
        return Err(S.TooSoon);
      }
      if active.Some? {
        runs := runs[active.value := runs[active.value].(status := S.Interrupted)];
      }
      r := Ok(S.New(|runs|));
      runs := runs + [S.Run(watch, now, S.Running)];
      watches := watches[watch := watches[watch].(nextRun := now + S.WEEK)];
    }

    /** The end of `execute`. */
    method Finish(run: S.RunId, outcome: string, now: int)
      requires Valid() && run < |runs|
      modifies this`watches, this`runs
      ensures Valid() && S.Tables(watches, runs) == S.FinishTx(S.Tables(old(watches), old(runs)), run, outcome, now)
    {
      SearchStep(S.Tables(watches, runs), S.Finish(run, outcome, now));
      var watch := runs[run].watch;
      runs := runs[run := runs[run].(status := S.Finished(outcome))];
      if outcome !in {"complete", "partial"} && watch in watches {
        watches := watches[watch := watches[watch].(nextRun := now + S.RETRY)];
      }
    }

    // ----- first contact -----

    /** The claiming transaction. */
    method ClaimContact(worker: C.Worker, watch: C.Watch, url: Url, checked: int, stamped: int)
      returns (refusal: Option<C.Refusal>)
      requires Valid() && checked <= stamped && worker !in contacting.flights
      modifies this`contacts, this`contacting
      ensures Valid() && contacting == C.Exec(old(contacting), C.Claim(worker, watch, url, checked, stamped))
      ensures refusal == Some(C.DailyLimit) <==> C.CountSince(old(contacts), checked - C.DAY) >= C.DAILY
      ensures refusal == Some(C.AlreadyContacted) ==> C.Known(old(contacts), url)
      ensures refusal.None? ==>
        && !C.Known(old(contacts), url) && contacting.flights == old(contacting).flights[worker := C.Claimed(url)]
        && contacting.sent == old(contacting).sent
      ensures contacts == if refusal.None? then old(contacts) + [C.Contact(url, watch, stamped, "attempted")] else old(contacts)
      ensures refusal.Some? ==> contacting == old(contacting)
    {
      ContactStep(contacting, C.Claim(worker, watch, url, checked, stamped));
      contacting := C.Exec(contacting, C.Claim(worker, watch, url, checked, stamped));
      if C.CountSince(contacts, checked - C.DAY) >= C.DAILY {
        return Some(C.DailyLimit);
      }
      if C.Known(contacts, url) {
        return Some(C.AlreadyContacted);
      }
      contacts := contacts + [C.Contact(url, watch, stamped, "attempted")];
      refusal := None;
    }

    /** The external message, then the row's outcome; an exception leaves the claim as evidence. */
    method SendContact(worker: C.Worker, url: Url, ghost before: seq<C.Contact>, ghost claimed: C.Contact, outcome: Option<string>)
      requires Valid() && worker in contacting.flights && contacting.flights[worker] == C.Claimed(url)
      requires contacts == before + [claimed] && claimed.url == url && !C.Known(before, url)
      modifies this`contacts, this`contacting
      ensures Valid() && contacting.flights == old(contacting).flights - {worker}
      ensures contacting.sent == old(contacting).sent + [url]
      ensures contacts == before + [if outcome.Some? then claimed.(status := outcome.value) else claimed]
    {
      var status := if outcome.Some? then outcome.value else "";
      ContactStep(contacting, C.Send(worker, status));
      contacting := C.Exec(contacting, C.Send(worker, status));
      if outcome.None? {
        ContactStep(contacting, C.Crash(worker));
        contacting := C.Exec(contacting, C.Crash(worker));
        assert contacting.flights == old(contacting).flights - {worker};
        return;
      }
      ContactStep(contacting, C.Record(worker));
      contacting := C.Exec(contacting, C.Record(worker));
      ClaimedStatus(before, claimed, status);
      contacts := C.WithStatus(contacts, url, status);
      assert contacting.flights == old(contacting).flights - {worker};
    }

    /** Claim one listing and, only if that committed, message its seller. */
    method ContactSeller(worker: C.Worker, watch: C.Watch, url: Url, checked: int, stamped: int, outcome: Option<string>)
      returns (result: Outcome)
      requires Valid() && checked <= stamped && worker !in contacting.flights && !C.Known(contacts, url)
      modifies this`contacts, this`contacting
      ensures Valid() && contacting.flights == old(contacting).flights
      ensures C.CountSince(old(contacts), checked - C.DAY) < C.DAILY ==>
        && contacts == old(contacts) + [C.Contact(url, watch, stamped, if outcome.Some? then outcome.value else "attempted")]
        && contacting.sent == old(contacting).sent + [url]
        && result == if outcome.Some? then Reported(outcome.value) else NeedsOwner
      ensures C.CountSince(old(contacts), checked - C.DAY) >= C.DAILY ==>
        contacts == old(contacts) && contacting.sent == old(contacting).sent && result == Waiting
    {
      var refusal := ClaimContact(worker, watch, url, checked, stamped);
      if refusal.Some? {
        return if refusal.value == C.DailyLimit then Waiting else NeedsOwner;
      }
      SendContact(worker, url, old(contacts), C.Contact(url, watch, stamped, "attempted"), outcome);
      assert contacting.flights == old(contacting).flights;
      result := if outcome.Some? then Reported(outcome.value) else NeedsOwner;
    }

    /**
     `autonomous_contact`: nothing is claimed unless the day has room and the chosen listing is new; then exactly
     one row is added before the one message is sent, and the row keeps what became of it.
    */
    method AutonomousContact(
      worker: C.Worker, watch: C.Watch, matches: seq<Url>, looked: int, choice: Option<nat>,
      checked: int, stamped: int, outcome: Option<string>)
      returns (result: Outcome)
      requires Valid() && checked <= stamped && worker !in contacting.flights
      modifies this`contacts, this`contacting
      ensures Valid() && contacting.flights == old(contacting).flights
      ensures var candidates := Unknown(old(contacts), matches);
        if choice.Some? && choice.value < |candidates|
           && C.CountSince(old(contacts), looked - C.DAY) < C.DAILY && C.CountSince(old(contacts), checked - C.DAY) < C.DAILY
        then
          var url := candidates[choice.value];
          && contacts == old(contacts) + [C.Contact(url, watch, stamped, if outcome.Some? then outcome.value else "attempted")]
          && contacting.sent == old(contacting).sent + [url]
          && result == if outcome.Some? then Reported(outcome.value) else NeedsOwner
        else
          && contacts == old(contacts) && contacting.sent == old(contacting).sent
          && result == if candidates != [] && C.CountSince(old(contacts), looked - C.DAY) < C.DAILY
                          && choice.Some? && choice.value >= |candidates| then NeedsOwner else Waiting
    {
      var candidates := Unknown(contacts, matches);
      if candidates == [] || C.CountSince(contacts, looked - C.DAY) >= C.DAILY || choice.None? {
        return Waiting;
      }
      if choice.value >= |candidates| {
        return NeedsOwner;
      }
      assert candidates[choice.value] in candidates;
      result := ContactSeller(worker, watch, candidates[choice.value], checked, stamped, outcome);
    }

    /** `hold`: the watch's latest contact and the replies waiting for it. */
    method Hold(watch: C.Watch) returns (held: bool)
      requires Valid()
      modifies this
      ensures Valid() && watches == old(watches) && runs == old(runs)
      ensures held <==> exists c <- old(contacts) :: c.watch == watch
      ensures var latest := C.LatestOf(old(contacts), watch);
        && held == latest.Some?
        && contacts == (if held then C.WithStatus(old(contacts), latest.value.url, "on_hold") else old(contacts))
        && replies == (if held then R.Closed(old(replies), latest.value.url, None, R.OnHold) else old(replies))
    {
      var latest := C.LatestOf(contacts, watch);
      if latest.None? {
        return false;
      }
      HoldContact(watch, latest.value.url);
      HoldReplies(latest.value.url);
      held := true;
    }

    method HoldContact(watch: C.Watch, url: Url)
      requires Valid() && C.LatestOf(contacts, watch).Some? && C.LatestOf(contacts, watch).value.url == url
      modifies this`contacts, this`contacting
      ensures Valid() && contacting == C.Exec(old(contacting), C.Hold(watch))
      ensures contacts == C.WithStatus(old(contacts), url, "on_hold")
    {
      ContactStep(contacting, C.Hold(watch));
      contacting := C.Exec(contacting, C.Hold(watch));
      contacts := C.WithStatus(contacts, url, "on_hold");
    }

    method HoldReplies(url: Url)
      requires Valid()
      modifies this`replies, this`answering
      ensures Valid() && answering == R.Exec(old(answering), R.Reading(R.Hold(url)))
      ensures replies == R.Closed(old(replies), url, None, R.OnHold)
    {
      R.OneMoreStep(digest, answering, R.Reading(R.Hold(url)));
      answering := R.Exec(answering, R.Reading(R.Hold(url)));
      replies := R.Closed(replies, url, None, R.OnHold);
    }

    // ----- following up -----

    /** One step of the reply model that leaves the table as it is. */
    ghost method Advance(step: R.Step)
      requires Valid() && R.Exec(answering, step).replies == replies
      modifies this`answering
      ensures Valid() && answering == R.Exec(old(answering), step)
    {
      R.OneMoreStep(digest, answering, step);
      answering := R.Exec(answering, step);
    }

    /** The transaction after a reading; true if the worker goes on to decide. */
    method Observe(worker: R.Worker, contact: Url, key: R.Key, now: int) returns (decide: bool, late: bool)
      requires Valid() && worker !in answering.flights
      modifies this`replies, this`answering
      ensures Valid() && answering == R.Exec(old(answering), R.Reading(R.Observe(worker, contact, key, now)))
      ensures decide <==> worker in answering.flights && answering.flights[worker] == R.Deciding(key, now)
      ensures late <==> worker in answering.flights && answering.flights[worker] == R.Late(key, now)
      ensures !decide && !late ==> answering.flights == old(answering).flights
      ensures R.ReadingDone(digest, old(replies), replies, contact, key, now) && answering.sent == old(answering).sent
      ensures decide <==> R.Due(replies, key, now) && InOpenHours(now)
      ensures late <==> R.Due(replies, key, now) && !InOpenHours(now)
    {
      ReachableTimes(digest, answering);
      R.ObservedExactly(digest, answering, worker, contact, key, now);
      R.OneMoreStep(digest, answering, R.Reading(R.Observe(worker, contact, key, now)));
      answering := R.Exec(answering, R.Reading(R.Observe(worker, contact, key, now)));
      decide, late := false, false;
      if key.rows == [] || key.rows[|key.rows| - 1].own {
        replies := R.Closed(replies, contact, None, R.Superseded);
      } else if R.Question(key.rows) {
        var times := R.Schedule(digest);
        replies := R.ObserveTx(times, replies, contact, key, now);
        if replies[key].status == R.Pending && replies[key].due <= now {
          decide := times.open(now);
          late := !decide;
        }
      }
    }

    /** Outside the hours: a new due time, if the reply still waits. */
    method Reschedule(worker: R.Worker, key: R.Key, now: int)
      requires Valid() && worker in answering.flights && answering.flights[worker] == R.Late(key, now)
      modifies this`replies, this`answering
      ensures Valid() && answering == R.Exec(old(answering), R.Reading(R.Reschedule(worker)))
      ensures answering.flights == old(answering).flights - {worker} && answering.sent == old(answering).sent
      ensures replies == PutOff(digest, old(replies), key, now)
    {
      ReachableTimes(digest, answering);
      R.OneMoreStep(digest, answering, R.Reading(R.Reschedule(worker)));
      answering := R.Exec(answering, R.Reading(R.Reschedule(worker)));
      if key in replies && replies[key].status == R.Pending {
        replies := replies[key := replies[key].(due := R.Schedule(digest).due(key, now))];
      }
    }

    /** The second reading and the compare-and-set. */
    method ClaimReply(worker: R.Worker, key: R.Key, now: int, again: seq<R.Row>) returns (claimed: bool)
      requires Valid() && worker in answering.flights && answering.flights[worker] == R.Deciding(key, now)
      modifies this`replies, this`answering
      ensures Valid() && answering == R.Exec(old(answering), R.Sends(R.Claim(worker, again)))
      ensures claimed <==> again == key.rows && key in old(replies) && old(replies)[key].status == R.Pending
      ensures if claimed then
          && replies == old(replies)[key := old(replies)[key].(status := R.Attempted)]
          && worker in answering.flights && answering.flights[worker] == R.Claimed(key, now, again)
          && answering.flights - {worker} == old(answering).flights - {worker}
        else replies == old(replies) && answering.flights == old(answering).flights - {worker}
      ensures answering.sent == old(answering).sent
    {
      var claim := R.Sends(R.Claim(worker, again));
      R.OneMoreStep(digest, answering, claim);
      answering := R.Exec(answering, claim);
      claimed := again == key.rows && key in replies && replies[key].status == R.Pending;
      if claimed {
        replies := replies[key := replies[key].(status := R.Attempted)];
      }
    }

    /** The click, unless the offer is ready for the owner, and what became of it; an exception leaves the claim. */
    method SendReply(
      worker: R.Worker, key: R.Key, now: int, again: seq<R.Row>, ready: bool, outcome: Option<string>, clickedAt: int)
      returns (ghost steps: seq<R.Step>)
      requires Valid() && worker in answering.flights && answering.flights[worker] == R.Claimed(key, now, again)
      requires key in replies && replies[key].status == R.Attempted
      modifies this`replies, this`answering
      ensures Valid() && answering == R.Run(old(answering), steps)
      ensures answering.flights == old(answering).flights - {worker}
      ensures steps == SendSteps(worker, ready, outcome, clickedAt)
      ensures answering.sent == (if ready then old(answering).sent else old(answering).sent + [R.Sending(key, now, again, clickedAt)])
      ensures replies == old(replies)[key := old(replies)[key].(
        status := if outcome.Some? then R.Reported(outcome.value) else R.Attempted)]
    {
      var status := if outcome.Some? then outcome.value else "";
      steps := R.Extend(answering, [], R.Sends(R.Answer(worker, ready, status, clickedAt)));
      Click(worker, key, now, again, ready, status, clickedAt);
      if outcome.None? {
        steps := R.Extend(old(answering), steps, R.Reading(R.Crash(worker)));
        Advance(R.Reading(R.Crash(worker)));
        return;
      }
      steps := R.Extend(old(answering), steps, R.Sends(R.Record(worker)));
      RecordReply(worker, key, status);
    }

    ghost method Click(
      worker: R.Worker, key: R.Key, now: int, again: seq<R.Row>, ready: bool, status: string, clickedAt: int)
      requires Valid() && worker in answering.flights && answering.flights[worker] == R.Claimed(key, now, again)
      modifies this`answering
      ensures Valid() && answering == R.Exec(old(answering), R.Sends(R.Answer(worker, ready, status, clickedAt)))
      ensures worker in answering.flights && answering.flights[worker] == R.Answered(key, status)
      ensures answering.flights - {worker} == old(answering).flights - {worker}
      ensures answering.sent == (if ready then old(answering).sent else old(answering).sent + [R.Sending(key, now, again, clickedAt)])
    {
      Advance(R.Sends(R.Answer(worker, ready, status, clickedAt)));
    }

    method RecordReply(worker: R.Worker, key: R.Key, status: string)
      requires Valid() && key in replies
      requires worker in answering.flights && answering.flights[worker] == R.Answered(key, status)
      modifies this`replies, this`answering
      ensures Valid() && answering == R.Exec(old(answering), R.Sends(R.Record(worker)))
      ensures answering.flights == old(answering).flights - {worker} && answering.sent == old(answering).sent
      ensures replies == old(replies)[key := old(replies)[key].(status := R.Reported(status))]
    {
      R.OneMoreStep(digest, answering, R.Sends(R.Record(worker)));
      answering := R.Exec(answering, R.Sends(R.Record(worker)));
      replies := replies[key := replies[key].(status := R.Reported(status))];
    }

    /** From the decision on: an unchanged conversation and a still pending reply are claimed and answered. */
    method Answer(
      worker: R.Worker, key: R.Key, now: int, again: seq<R.Row>, ready: bool, outcome: Option<string>, clickedAt: int)
      returns (ghost steps: seq<R.Step>)
      requires Valid() && worker in answering.flights && answering.flights[worker] == R.Deciding(key, now)
      modifies this`replies, this`answering
      ensures Valid() && answering == R.Run(old(answering), steps)
      ensures answering.flights == old(answering).flights - {worker}
      ensures steps == AnswerSteps(old(answering), worker, key, again, ready, outcome, clickedAt)
      ensures again == key.rows && key in old(replies) && old(replies)[key].status == R.Pending ==>
        && answering.sent == (if ready then old(answering).sent else old(answering).sent + [R.Sending(key, now, again, clickedAt)])
        && replies == old(replies)[key := old(replies)[key].(
             status := if outcome.Some? then R.Reported(outcome.value) else R.Attempted)]
      ensures !(again == key.rows && key in old(replies) && old(replies)[key].status == R.Pending) ==>
        answering.sent == old(answering).sent && replies == old(replies)
    {
      steps := R.Extend(answering, [], R.Sends(R.Claim(worker, again)));
      var claimed := ClaimReply(worker, key, now, again);
      if claimed {
        ghost var more := SendReply(worker, key, now, again, ready, outcome, clickedAt);
        R.RunConcat(old(answering), steps, more);
        steps := steps + more;
      }
    }

    /** One contact of the loop. */
    method FollowContact(worker: R.Worker, contact: Url, turn: Turn) returns (ghost steps: seq<R.Step>)
      requires Valid() && worker !in answering.flights
      modifies this`replies, this`answering
      ensures Valid() && answering == R.Run(old(answering), steps) && answering.flights == old(answering).flights
      ensures steps == TurnSteps(old(answering), worker, contact, turn)
      ensures TurnDone(digest, old(answering), answering, contact, turn)
    {
      steps := [];
      if turn.conversation.None? || turn.rows.None? {
        return;
      }
      var key := R.Key(turn.conversation.value, turn.rows.value);
      steps := R.Extend(answering, [], R.Reading(R.Observe(worker, contact, key, turn.now)));
      var decide, late := Observe(worker, contact, key, turn.now);
      ObserveFlights(old(answering), worker, contact, key, turn.now);
      ghost var read := replies;
      ghost var more := [];
      if late {
        more := R.Extend(answering, [], R.Reading(R.Reschedule(worker)));
        Reschedule(worker, key, turn.now);
      } else if decide {
        if turn.ready.Some? && turn.again.Some? {
          more := Answer(worker, key, turn.now, turn.again.value, turn.ready.value, turn.outcome, turn.clickedAt);
        } else {
          more := R.Extend(answering, [], R.Reading(R.Crash(worker)));
          Advance(R.Reading(R.Crash(worker)));
        }
      }
      R.RunConcat(old(answering), steps, more);
      steps := steps + more;
      assert Concluded(digest, read, replies, old(answering).sent, answering.sent, key, turn);
    }

    /** The loop of `follow_up` over the contacts it selected: one turn after the other, each of them done. */
    method FollowUp(worker: R.Worker, enabled: set<C.Watch>, due: Option<int>, turns: Url -> Turn)
      returns (ghost steps: seq<R.Step>, ghost states: seq<R.System>)
      requires Valid() && worker !in answering.flights
      modifies this`replies, this`answering
      ensures Valid() && answering.flights == old(answering).flights && R.AllOnward(old(replies), replies)
      ensures var urls := Followed(contacts, old(replies), enabled, due);
        Passed(digest, old(answering), answering, worker, urls, turns, steps, states)
    {
      var selected := Followed(contacts, replies, enabled, due);
      steps, states := [], [answering];
      for k := 0 to |selected|
        invariant Valid() && answering.flights == old(answering).flights
        invariant Passed(digest, old(answering), answering, worker, selected[..k], turns, steps, states)
      {
        ghost var now := answering;
        ghost var more := FollowContact(worker, selected[k], turns(selected[k]));
        OneMoreTurn(digest, old(answering), now, worker, selected[..k], turns, steps, states, selected[k], more, answering);
        assert selected[..k] + [selected[k]] == selected[..k + 1];
        steps, states := steps + more, states + [answering];
      }
      assert selected[..|selected|] == selected;
      R.ReachableInv(digest, old(answering));
      R.RunMovesOn(old(answering), steps);
    }
  }

  lemma ReachableTimes(digest: R.Key -> nat, sys: R.System)
    requires R.Reachable(digest, sys)
    ensures sys.times == R.Schedule(digest)
  {
    R.ReachableInv(digest, sys);
  }

  lemma ObserveFlights(sys: R.System, worker: R.Worker, contact: Url, key: R.Key, now: int)
    requires worker !in sys.flights
    ensures var next := R.Exec(sys, R.Reading(R.Observe(worker, contact, key, now)));
      next.flights - {worker} == sys.flights
  {
  }

  lemma ClaimedStatus(contacts: seq<C.Contact>, claimed: C.Contact, status: string)
    requires !C.Known(contacts, claimed.url)
    ensures C.WithStatus(contacts + [claimed], claimed.url, status) == contacts + [claimed.(status := status)]
  {
    var before := contacts + [claimed];
    var after := C.WithStatus(before, claimed.url, status);
    forall k | 0 <= k < |contacts| ensures after[k] == contacts[k] {
      assert contacts[k] in contacts && before[k] == contacts[k];
    }
  }
}
