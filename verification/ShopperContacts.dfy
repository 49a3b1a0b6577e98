/**
 First contacts with sellers (shopper_service.py, `autonomous_contact`): a claim row is committed before anything
 is sent, at most two of them a day. Runs interleave any number of workers with holds, later confirmations and
 crashes. The clock is read twice inside a claim; between transactions it may be set to anything.
*/
module ShopperContacts {
  import opened Wrappers

  const DAY := 86_400
  const DAILY := 2

  type Url = string
  type Watch = string
  type Worker = nat

  datatype Contact = Contact(url: Url, watch: Watch, attemptedAt: int, status: string)

  datatype Refusal = DailyLimit | AlreadyContacted

  datatype Flight = Claimed(url: Url) | Sent(url: Url, outcome: string)

  /** The table in the order of its claims, the workers under way, and every first message ever sent. */
  datatype System = System(contacts: seq<Contact>, flights: map<Worker, Flight>, sent: seq<Url>)

  const INITIAL := System([], map[], [])

  datatype Step =
    | Claim(worker: Worker, watch: Watch, url: Url, checked: int, stamped: int)
    | Send(worker: Worker, outcome: string)
    | Record(worker: Worker)
    | Crash(worker: Worker)
    | Hold(watch: Watch)
    | Confirm(url: Url, status: string)

  /** How many rows carry a stamp after the cutoff. */
  function CountSince(contacts: seq<Contact>, cutoff: int): nat {
    if contacts == [] then 0
    else
      CountSince(contacts[..|contacts| - 1], cutoff)
      + if contacts[|contacts| - 1].attemptedAt > cutoff then 1 else 0
  }

  predicate Known(contacts: seq<Contact>, url: Url) {
    exists c <- contacts :: c.url == url
  }

  function ClaimTx(contacts: seq<Contact>, watch: Watch, url: Url, checked: int, stamped: int)
    : Result<seq<Contact>, Refusal>
  {
    if CountSince(contacts, checked - DAY) >= DAILY then Err(DailyLimit)
    else if Known(contacts, url) then Err(AlreadyContacted)
    else Ok(contacts + [Contact(url, watch, stamped, "attempted")])
  }

  /** The listing's row with a new status. */
  function WithStatus(contacts: seq<Contact>, url: Url, status: string): (updated: seq<Contact>)
    ensures |updated| == |contacts|
    ensures forall k | 0 <= k < |contacts| ::
      updated[k] == if contacts[k].url == url then contacts[k].(status := status) else contacts[k]
  {
    if contacts == [] then []
    else
      var last := contacts[|contacts| - 1];
      WithStatus(contacts[..|contacts| - 1], url, status) + [if last.url == url then last.(status := status) else last]
  }

  /** The watch's contact with the latest attempt, the newest row among equals. */
  function LatestOf(contacts: seq<Contact>, watch: Watch): (latest: Option<Contact>)
    ensures latest.Some? ==> latest.value in contacts && latest.value.watch == watch
    ensures latest.None? <==> forall c <- contacts :: c.watch != watch
  {
    if contacts == [] then None
    else
      var earlier, last := LatestOf(contacts[..|contacts| - 1], watch), contacts[|contacts| - 1];
      if last.watch == watch && (earlier.None? || last.attemptedAt >= earlier.value.attemptedAt) then Some(last) else earlier
  }

  function Exec(sys: System, step: Step): System {
    match step
    case Claim(worker, watch, url, checked, stamped) =>
      if worker in sys.flights then sys
      else (
        match ClaimTx(sys.contacts, watch, url, checked, stamped)
        case Ok(contacts) => sys.(contacts := contacts, flights := sys.flights[worker := Claimed(url)])
        case Err(_) => sys)
    case Send(worker, outcome) =>
      if worker in sys.flights && sys.flights[worker].Claimed? then
        var url := sys.flights[worker].url;
        sys.(sent := sys.sent + [url], flights := sys.flights[worker := Sent(url, outcome)])
      else sys
    case Record(worker) =>
      if worker in sys.flights && sys.flights[worker].Sent? then
        var flight := sys.flights[worker];
        sys.(contacts := WithStatus(sys.contacts, flight.url, flight.outcome), flights := sys.flights - {worker})
      else sys
    case Crash(worker) => sys.(flights := sys.flights - {worker})
    case Hold(watch) =>
      var latest := LatestOf(sys.contacts, watch);
      if latest.Some? then sys.(contacts := WithStatus(sys.contacts, latest.value.url, "on_hold")) else sys
    case Confirm(url, status) => sys.(contacts := WithStatus(sys.contacts, url, status))
  }

  function Run(start: System, steps: seq<Step>): System {
    if steps == [] then start else Exec(Run(start, steps[..|steps| - 1]), steps[|steps| - 1])
  }

  /** The clock was not set back inside the claim. */
  predicate Steady(step: Step) {
    step.Claim? ==> step.checked <= step.stamped
  }

  ghost predicate Reachable(sys: System) {
    exists steps: seq<Step> :: (forall s <- steps :: Steady(s)) && sys == Run(INITIAL, steps)
  }

  // ----- windows -----

  /** Claims in the half-open window [from, to). */
  function CountIn(contacts: seq<Contact>, from: int, to: int): nat {
    if contacts == [] then 0
    else
      CountIn(contacts[..|contacts| - 1], from, to)
      + if from <= contacts[|contacts| - 1].attemptedAt < to then 1 else 0
  }

  /** Everything in a window that is still open at the cutoff is counted by the check. */
  lemma {:induction false} WindowIsCounted(contacts: seq<Contact>, from: int, to: int, cutoff: int)
    requires cutoff < from
    ensures CountIn(contacts, from, to) <= CountSince(contacts, cutoff)
  {
    if contacts != [] {
      WindowIsCounted(contacts[..|contacts| - 1], from, to, cutoff);
    }
  }

  /** Rows with the same stamps give the same counts, whatever their status became. */
  lemma {:induction false} StatusDoesNotCount(contacts: seq<Contact>, url: Url, status: string, from: int, to: int)
    ensures CountIn(WithStatus(contacts, url, status), from, to) == CountIn(contacts, from, to)
  {
    if contacts != [] {
      StatusDoesNotCount(contacts[..|contacts| - 1], url, status, from, to);
      var updated := WithStatus(contacts, url, status);
      assert updated[..|contacts| - 1] == WithStatus(contacts[..|contacts| - 1], url, status);
    }
  }

  lemma ClaimKeepsWindows(contacts: seq<Contact>, watch: Watch, url: Url, checked: int, stamped: int, from: int)
    requires checked <= stamped && ClaimTx(contacts, watch, url, checked, stamped).Ok?
    requires CountIn(contacts, from, from + DAY) <= DAILY
    ensures CountIn(ClaimTx(contacts, watch, url, checked, stamped).value, from, from + DAY) <= DAILY
  {
    var claimed := ClaimTx(contacts, watch, url, checked, stamped).value;
    assert claimed[..|claimed| - 1] == contacts;
    if from <= stamped < from + DAY {
      WindowIsCounted(contacts, from, from + DAY, checked - DAY);
    }
  }

  // ----- the invariant -----

  ghost predicate UrlsDiffer(contacts: seq<Contact>) {
    forall i, j | 0 <= i < j < |contacts| :: contacts[i].url != contacts[j].url
  }

  ghost predicate FlightsOk(sys: System) {
    && (forall w <- sys.flights :: Known(sys.contacts, sys.flights[w].url) && (sys.flights[w].Claimed? ==> sys.flights[w].url !in sys.sent))
    && forall v, w | v in sys.flights && w in sys.flights && v != w :: sys.flights[v].url != sys.flights[w].url
  }

  ghost predicate SentOk(sys: System) {
    && (forall url <- sys.sent :: Known(sys.contacts, url))
    && forall i, j | 0 <= i < j < |sys.sent| :: sys.sent[i] != sys.sent[j]
  }

  ghost predicate Inv(sys: System) {
    UrlsDiffer(sys.contacts) && FlightsOk(sys) && SentOk(sys)
  }

  lemma StatusKeepsUrls(contacts: seq<Contact>, url: Url, status: string)
    ensures forall u :: Known(WithStatus(contacts, url, status), u) <==> Known(contacts, u)
    ensures UrlsDiffer(contacts) ==> UrlsDiffer(WithStatus(contacts, url, status))
  {
    var updated := WithStatus(contacts, url, status);
    forall u ensures Known(updated, u) <==> Known(contacts, u) {
      if c :| c in updated && c.url == u {
        var k :| 0 <= k < |updated| && updated[k] == c;
        assert contacts[k] in contacts;
      }
      if c :| c in contacts && c.url == u {
        var k :| 0 <= k < |contacts| && contacts[k] == c;
        assert updated[k] in updated;
      }
    }
  }

  lemma ClaimKeeps(sys: System, step: Step)
    requires Inv(sys) && step.Claim?
    ensures Inv(Exec(sys, step))
  {
    if step.worker !in sys.flights {
      var tx := ClaimTx(sys.contacts, step.watch, step.url, step.checked, step.stamped);
      if tx.Ok? {
        forall c <- sys.contacts ensures c in tx.value {
        }
        assert tx.value[|sys.contacts|].url == step.url;
        assert step.url !in sys.sent;
        forall u | Known(sys.contacts, u) ensures Known(tx.value, u) {
          var c :| c in sys.contacts && c.url == u;
          assert c in tx.value;
        }
      }
    }
  }

  lemma SendKeeps(sys: System, worker: Worker, outcome: string)
    requires Inv(sys)
    ensures Inv(Exec(sys, Send(worker, outcome)))
  {
  }

  lemma RecordKeeps(sys: System, worker: Worker)
    requires Inv(sys)
    ensures Inv(Exec(sys, Record(worker)))
  {
    if worker in sys.flights {
      var flight := sys.flights[worker];
      if flight.Sent? {
        StatusKeepsUrls(sys.contacts, flight.url, flight.outcome);
      }
    }
  }

  lemma ExecKeeps(sys: System, step: Step)
    requires Inv(sys)
    ensures Inv(Exec(sys, step))
  {
    match step
    case Claim(_, _, _, _, _) => ClaimKeeps(sys, step);
    case Send(worker, outcome) => SendKeeps(sys, worker, outcome);
    case Crash(_) =>
    case Record(worker) => RecordKeeps(sys, worker);
    case Hold(watch) =>
      var latest := LatestOf(sys.contacts, watch);
      if latest.Some? {
        StatusKeepsUrls(sys.contacts, latest.value.url, "on_hold");
      }
    case Confirm(url, status) => StatusKeepsUrls(sys.contacts, url, status);
  }

  lemma ExecKeepsWindows(sys: System, step: Step, from: int)
    requires Steady(step) && CountIn(sys.contacts, from, from + DAY) <= DAILY
    ensures CountIn(Exec(sys, step).contacts, from, from + DAY) <= DAILY
  {
    if step.Claim? {
      var tx := ClaimTx(sys.contacts, step.watch, step.url, step.checked, step.stamped);
      if step.worker !in sys.flights && tx.Ok? {
        ClaimKeepsWindows(sys.contacts, step.watch, step.url, step.checked, step.stamped, from);
      }
    } else {
      OthersKeepCounts(sys, step, from, from + DAY);
    }
  }

  lemma OthersKeepCounts(sys: System, step: Step, from: int, to: int)
    requires !step.Claim?
    ensures CountIn(Exec(sys, step).contacts, from, to) == CountIn(sys.contacts, from, to)
  {
    match step
    case Record(worker) =>
      if worker in sys.flights && sys.flights[worker].Sent? {
        StatusDoesNotCount(sys.contacts, sys.flights[worker].url, sys.flights[worker].outcome, from, to);
      }
    case Hold(watch) =>
      var latest := LatestOf(sys.contacts, watch);
      if latest.Some? {
        StatusDoesNotCount(sys.contacts, latest.value.url, "on_hold", from, to);
      }
    case Confirm(url, status) => StatusDoesNotCount(sys.contacts, url, status, from, to);
    case _ =>
  }

  lemma {:induction false} RunKeepsWindows(steps: seq<Step>, from: int)
    requires forall s <- steps :: Steady(s)
    ensures CountIn(Run(INITIAL, steps).contacts, from, from + DAY) <= DAILY
  {
    if steps != [] {
      RunKeepsWindows(steps[..|steps| - 1], from);
      ExecKeepsWindows(Run(INITIAL, steps[..|steps| - 1]), steps[|steps| - 1], from);
    }
  }

  lemma {:induction false} RunKeeps(start: System, steps: seq<Step>)
    requires Inv(start)
    ensures Inv(Run(start, steps))
  {
    if steps != [] {
      RunKeeps(start, steps[..|steps| - 1]);
      ExecKeeps(Run(start, steps[..|steps| - 1]), steps[|steps| - 1]);
    }
  }

  lemma ReachableInv(sys: System)
    requires Reachable(sys)
    ensures Inv(sys)
  {
    var steps: seq<Step> :| (forall s <- steps :: Steady(s)) && sys == Run(INITIAL, steps);
    RunKeeps(INITIAL, steps);
  }

  // ----- the claims -----

  /** Every half-open window of 24 hours holds at most two claims, over all watches and workers. */
  lemma TwoContactsADay(sys: System, from: int)
    requires Reachable(sys)
    ensures CountIn(sys.contacts, from, from + 86_400) <= 2
  {
    var steps: seq<Step> :| (forall s <- steps :: Steady(s)) && sys == Run(INITIAL, steps);
    RunKeepsWindows(steps, from);
  }

  lemma {:induction false} CountSplits(contacts: seq<Contact>, from: int, mid: int, to: int)
    requires from <= mid <= to
    ensures CountIn(contacts, from, to) == CountIn(contacts, from, mid) + CountIn(contacts, mid, to)
  {
    if contacts != [] {
      CountSplits(contacts[..|contacts| - 1], from, mid, to);
    }
  }

  /** A window closed at both ends can hold more, but never more than four. */
  lemma FourInAClosedWindow(sys: System, from: int)
    requires Reachable(sys)
    ensures CountIn(sys.contacts, from, from + DAY + 1) <= 2 * DAILY
  {
    TwoContactsADay(sys, from);
    TwoContactsADay(sys, from + 1);
    CountSplits(sys.contacts, from, from + 1, from + DAY + 1);
    CountSplits(sys.contacts, from, from + 1, from + DAY);
  }

  // ----- exactly when the limit holds, whatever the clock does -----

  /** Three instants of one half-open day. */
  predicate Together(a: int, b: int, c: int) {
    -DAY < a - b < DAY && -DAY < b - c < DAY && -DAY < a - c < DAY
  }

  /** One more claim with this stamp would share a day with two others. */
  ghost predicate Crowded(contacts: seq<Contact>, stamp: int) {
    exists i, j | 0 <= i < j < |contacts| :: Together(contacts[i].attemptedAt, contacts[j].attemptedAt, stamp)
  }

  ghost predicate TwoWithin(contacts: seq<Contact>, from: int, to: int) {
    exists i, j | 0 <= i < j < |contacts| :: from <= contacts[i].attemptedAt < to && from <= contacts[j].attemptedAt < to
  }

  ghost predicate OneWithin(contacts: seq<Contact>, from: int, to: int) {
    exists i | 0 <= i < |contacts| :: from <= contacts[i].attemptedAt < to
  }

  lemma {:induction false} CountSeesOne(contacts: seq<Contact>, from: int, to: int)
    ensures CountIn(contacts, from, to) >= 1 <==> OneWithin(contacts, from, to)
  {
    if contacts != [] {
      var n := |contacts| - 1;
      CountSeesOne(contacts[..n], from, to);
      forall i | 0 <= i < n ensures contacts[..n][i] == contacts[i] {
      }
    }
  }

  lemma PairWithLast(contacts: seq<Contact>, from: int, to: int)
    requires contacts != []
    ensures var n := |contacts| - 1;
      TwoWithin(contacts, from, to) <==>
        TwoWithin(contacts[..n], from, to) || (from <= contacts[n].attemptedAt < to && OneWithin(contacts[..n], from, to))
  {
    var n := |contacts| - 1;
    forall i | 0 <= i < n ensures contacts[..n][i] == contacts[i] {
    }
  }

  lemma {:induction false} CountSeesPairs(contacts: seq<Contact>, from: int, to: int)
    ensures CountIn(contacts, from, to) >= DAILY <==> TwoWithin(contacts, from, to)
  {
    if contacts != [] {
      CountSeesPairs(contacts[..|contacts| - 1], from, to);
      CountSeesOne(contacts[..|contacts| - 1], from, to);
      PairWithLast(contacts, from, to);
    }
  }

  /** Claims in the half-open day that starts then. */
  function DayCount(contacts: seq<Contact>, from: int): nat {
    CountIn(contacts, from, from + DAY)
  }

  /** No day holds more than two claims. */
  ghost predicate LimitHolds(contacts: seq<Contact>) {
    forall from :: DayCount(contacts, from) <= DAILY
  }

  lemma DayCountOfOneMore(contacts: seq<Contact>, contact: Contact, from: int)
    ensures DayCount(contacts + [contact], from) ==
      DayCount(contacts, from) + if from <= contact.attemptedAt < from + DAY then 1 else 0
  {
    assert (contacts + [contact])[..|contacts|] == contacts;
  }

  /** A claim is crowded exactly when some day around its stamp is full. */
  lemma CrowdedExactlyWhen(contacts: seq<Contact>, stamp: int)
    ensures Crowded(contacts, stamp) <==> exists from | from <= stamp < from + DAY :: DayCount(contacts, from) >= DAILY
  {
    if Crowded(contacts, stamp) {
      var i, j :| 0 <= i < j < |contacts| && Together(contacts[i].attemptedAt, contacts[j].attemptedAt, stamp);
      var least := Least(Least(contacts[i].attemptedAt, contacts[j].attemptedAt), stamp);
      CountSeesPairs(contacts, least, least + DAY);
      assert DayCount(contacts, least) >= DAILY;
    }
    if from :| from <= stamp < from + DAY && DayCount(contacts, from) >= DAILY {
      CountSeesPairs(contacts, from, from + DAY);
      var i, j :| 0 <= i < j < |contacts|
        && from <= contacts[i].attemptedAt < from + DAY && from <= contacts[j].attemptedAt < from + DAY;
      assert Together(contacts[i].attemptedAt, contacts[j].attemptedAt, stamp);
    }
  }

  lemma OneMoreExactlyWhen(contacts: seq<Contact>, contact: Contact)
    ensures LimitHolds(contacts + [contact]) <==> LimitHolds(contacts) && !Crowded(contacts, contact.attemptedAt)
  {
    var more := contacts + [contact];
    CrowdedExactlyWhen(contacts, contact.attemptedAt);
    forall from
      ensures DayCount(more, from) ==
        DayCount(contacts, from) + if from <= contact.attemptedAt < from + DAY then 1 else 0
    {
      DayCountOfOneMore(contacts, contact, from);
    }
  }

  function Least(a: int, b: int): int {
    if a < b then a else b
  }

  lemma {:induction false} SameStampsSameCounts(a: seq<Contact>, b: seq<Contact>, from: int, to: int)
    requires ClaimsKept(a, b) && |a| == |b|
    ensures CountIn(a, from, to) == CountIn(b, from, to)
  {
    if a != [] {
      var n := |a| - 1;
      assert forall k | 0 <= k < n :: b[..n][k] == a[..n][k].(status := b[..n][k].status);
      SameStampsSameCounts(a[..n], b[..n], from, to);
    }
  }

  predicate Granted(sys: System, step: Step) {
    && step.Claim? && step.worker !in sys.flights
    && ClaimTx(sys.contacts, step.watch, step.url, step.checked, step.stamped).Ok?
  }

  /** The k-th step is no granted claim, or was stamped where no two earlier claims share its day. */
  ghost predicate KeepsRoom(steps: seq<Step>, k: nat)
    requires k < |steps|
  {
    var before := Run(INITIAL, steps[..k]);
    Granted(before, steps[k]) ==> !Crowded(before.contacts, steps[k].stamped)
  }

  ghost predicate RoomKept(steps: seq<Step>) {
    forall k | 0 <= k < |steps| :: KeepsRoom(steps, k)
  }

  lemma StepLimitExactlyWhen(sys: System, step: Step)
    ensures LimitHolds(Exec(sys, step).contacts) <==>
      LimitHolds(sys.contacts) && (Granted(sys, step) ==> !Crowded(sys.contacts, step.stamped))
  {
    if Granted(sys, step) {
      OneMoreExactlyWhen(sys.contacts, Contact(step.url, step.watch, step.stamped, "attempted"));
    } else {
      var after := Exec(sys, step).contacts;
      forall from ensures DayCount(after, from) == DayCount(sys.contacts, from) {
        SameStampsSameCounts(sys.contacts, after, from, from + DAY);
      }
    }
  }

  /**
   Over any run, whatever the clock does: no half-open day holds more than two claims if and only if every granted
   claim was stamped where no two earlier ones share a day with it.
  */
  lemma {:induction false} LimitHoldsExactlyWhen(steps: seq<Step>)
    ensures LimitHolds(Run(INITIAL, steps).contacts) <==> RoomKept(steps)
  {
    if steps == [] {
      assert forall from :: DayCount([], from) == 0;
    } else {
      LimitHoldsExactlyWhen(steps[..|steps| - 1]);
      LastKeepsRoom(steps);
      RoomKeptSplits(steps);
    }
  }

  lemma RoomKeptSplits(steps: seq<Step>)
    requires steps != []
    ensures RoomKept(steps) <==> RoomKept(steps[..|steps| - 1]) && KeepsRoom(steps, |steps| - 1)
  {
    var n := |steps| - 1;
    forall k | 0 <= k < n ensures KeepsRoom(steps[..n], k) == KeepsRoom(steps, k) {
      EarlierKeepsRoom(steps, n, k);
    }
  }

  lemma EarlierKeepsRoom(steps: seq<Step>, n: nat, k: nat)
    requires k < n <= |steps|
    ensures KeepsRoom(steps[..n], k) == KeepsRoom(steps, k)
  {
    assert steps[..n][..k] == steps[..k];
  }

  lemma LastKeepsRoom(steps: seq<Step>)
    requires steps != []
    ensures LimitHolds(Run(INITIAL, steps).contacts) <==>
      LimitHolds(Run(INITIAL, steps[..|steps| - 1]).contacts) && KeepsRoom(steps, |steps| - 1)
  {
    StepLimitExactlyWhen(Run(INITIAL, steps[..|steps| - 1]), steps[|steps| - 1]);
  }

  /** A clock set back by a second inside the third claim is enough for three in a day. */
  lemma SetBackClockAllowsThree()
    ensures exists steps :: CountIn(Run(INITIAL, steps).contacts, 0, DAY) == 3
  {
    var a, b, c := Claim(1, "w", "a", 0, 0), Claim(2, "w", "b", 0, 0), Claim(3, "w", "c", DAY, DAY - 1);
    assert "a"[0] == 'a' && "b"[0] == 'b' && "c"[0] == 'c';
    TwoAtOnce(a, b);
    GrantedClaim(Exec(Exec(INITIAL, a), b), c, 0, DAY, 0);
    RunOfThree(a, b, c);
  }

  lemma TwoAtOnce(a: Step, b: Step)
    requires a.Claim? && b.Claim? && a.worker != b.worker && a.url != b.url
    requires a.checked == a.stamped == b.checked == b.stamped == 0
    ensures var two := Exec(Exec(INITIAL, a), b);
      && two.flights.Keys == {a.worker, b.worker} && CountIn(two.contacts, 0, DAY) == 2 && CountSince(two.contacts, 0) == 0
      && forall u :: Known(two.contacts, u) ==> u == a.url || u == b.url
  {
    GrantedClaim(INITIAL, a, 0, DAY, 0);
    GrantedClaim(INITIAL, a, 0, DAY, -DAY);
    GrantedClaim(Exec(INITIAL, a), b, 0, DAY, 0);
  }

  lemma RunOfThree(a: Step, b: Step, c: Step)
    ensures Run(INITIAL, [a, b, c]) == Exec(Exec(Exec(INITIAL, a), b), c)
  {
    assert [a, b, c][..2] == [a, b] && [a, b][..1] == [a] && [a][..0] == [];
    assert Run(INITIAL, [a]) == Exec(Run(INITIAL, []), a);
    assert Run(INITIAL, [a, b]) == Exec(Run(INITIAL, [a]), b);
  }

  // ----- single claims -----

  /** Two claims, whichever, with a stamp after the cutoff. */
  ghost predicate TwoSince(contacts: seq<Contact>, cutoff: int) {
    exists i, j | 0 <= i < j < |contacts| :: contacts[i].attemptedAt > cutoff && contacts[j].attemptedAt > cutoff
  }

  lemma {:induction false} CountSeesClaims(contacts: seq<Contact>, cutoff: int)
    ensures CountSince(contacts, cutoff) >= 1 <==> exists c <- contacts :: c.attemptedAt > cutoff
    ensures CountSince(contacts, cutoff) >= DAILY <==> TwoSince(contacts, cutoff)
  {
    if contacts != [] {
      var n := |contacts| - 1;
      CountSeesClaims(contacts[..n], cutoff);
      if TwoSince(contacts, cutoff) {
        var i, j :| 0 <= i < j < |contacts| && contacts[i].attemptedAt > cutoff && contacts[j].attemptedAt > cutoff;
        assert contacts[..n][i] in contacts[..n];
        if j < n {
          assert contacts[..n][j].attemptedAt > cutoff;
        }
      } else if c :| c in contacts[..n] && c.attemptedAt > cutoff {
        var i :| 0 <= i < n && contacts[i] == c;
      }
    }
  }

  /**
   What a caller can expect of a claim after any steps: an idle worker's claim is granted if and only if
   the listing was never claimed before, by anyone and for any watch, and no two claims carry a stamp of the last
   24 hours. Granted, it is the newest row and the worker may send once; refused, it changes nothing.
  */
  lemma ClaimIsGranted(steps: seq<Step>, worker: Worker, watch: Watch, url: Url, checked: int, stamped: int)
    requires worker !in Run(INITIAL, steps).flights
    ensures var sys := Run(INITIAL, steps);
      var next := Exec(sys, Claim(worker, watch, url, checked, stamped));
      var free := !TwoSince(sys.contacts, checked - DAY) && forall c <- sys.contacts :: c.url != url;
      && (next != sys <==> free)
      && (free ==>
            && next.contacts == sys.contacts + [Contact(url, watch, stamped, "attempted")]
            && next.flights == sys.flights[worker := Claimed(url)]
            && url !in sys.sent && next.sent == sys.sent)
  {
    var sys := Run(INITIAL, steps);
    RunKeeps(INITIAL, steps);
    CountSeesClaims(sys.contacts, checked - DAY);
    var next := Exec(sys, Claim(worker, watch, url, checked, stamped));
    assert next != sys <==> worker in next.flights;
  }

  /**
   Whatever the clock does: each listing is claimed at most once ever, nothing is sent without its claim, and
   nothing is sent twice.
  */
  lemma ContactedAtMostOnce(steps: seq<Step>)
    ensures var sys := Run(INITIAL, steps);
      && (forall i, j | 0 <= i < j < |sys.contacts| :: sys.contacts[i].url != sys.contacts[j].url)
      && (forall url <- sys.sent :: Known(sys.contacts, url))
      && forall i, j | 0 <= i < j < |sys.sent| :: sys.sent[i] != sys.sent[j]
  {
    RunKeeps(INITIAL, steps);
  }

  /**
   What the other steps do to the table, exactly: recording gives the listing that was messaged its outcome, a hold
   stops the watch's latest contact, a confirmation updates its listing; no other row changes, and no message goes out
   but by a worker that claimed the listing.
  */
  lemma StatusExactly(steps: seq<Step>, step: Step)
    ensures var sys, next := Run(INITIAL, steps), Exec(Run(INITIAL, steps), step);
      && (!step.Claim? ==> (
            && |next.contacts| == |sys.contacts|
            && forall k | 0 <= k < |sys.contacts| ::
                 next.contacts[k] == sys.contacts[k].(status :=
                   match step
                   case Record(w) =>
                     if w in sys.flights && sys.flights[w].Sent? && sys.flights[w].url == sys.contacts[k].url
                     then sys.flights[w].outcome else sys.contacts[k].status
                   case Hold(watch) =>
                     if sys.contacts[k].watch == watch && IsLatest(sys.contacts, k) then "on_hold" else sys.contacts[k].status
                   case Confirm(url, status) => if sys.contacts[k].url == url then status else sys.contacts[k].status
                   case _ => sys.contacts[k].status)))
      && next.sent == (match step
           case Send(w, _) => if w in sys.flights && sys.flights[w].Claimed? then sys.sent + [sys.flights[w].url] else sys.sent
           case _ => sys.sent)
  {
    var sys := Run(INITIAL, steps);
    RunKeeps(INITIAL, steps);
    if step.Hold? {
      forall k | 0 <= k < |sys.contacts|
        ensures IsLatest(sys.contacts, k) && sys.contacts[k].watch == step.watch <==>
          LatestOf(sys.contacts, step.watch).Some? && LatestOf(sys.contacts, step.watch).value.url == sys.contacts[k].url
      {
        LatestExactly(sys.contacts, k, step.watch);
      }
    }
  }

  /** The newest among the rows of its watch with the latest attempt. */
  predicate IsLatest(contacts: seq<Contact>, k: nat)
    requires k < |contacts|
  {
    forall j | 0 <= j < |contacts| && contacts[j].watch == contacts[k].watch && j != k ::
      contacts[j].attemptedAt < contacts[k].attemptedAt || (contacts[j].attemptedAt == contacts[k].attemptedAt && j < k)
  }

  lemma {:induction false} LatestAt(contacts: seq<Contact>, watch: Watch) returns (k: nat)
    requires LatestOf(contacts, watch).Some?
    ensures k < |contacts| && contacts[k] == LatestOf(contacts, watch).value && contacts[k].watch == watch && IsLatest(contacts, k)
  {
    var n := |contacts| - 1;
    var earlier := LatestOf(contacts[..n], watch);
    k := n;
    if earlier.Some? {
      k := LatestAt(contacts[..n], watch);
    }
    forall j | 0 <= j < n ensures contacts[..n][j] == contacts[j] && contacts[j] in contacts[..n] {
    }
    if contacts[n].watch == watch && (earlier.None? || contacts[n].attemptedAt >= earlier.value.attemptedAt) {
      k := n;
    }
  }

  lemma LatestExactly(contacts: seq<Contact>, k: nat, watch: Watch)
    requires k < |contacts| && UrlsDiffer(contacts)
    ensures IsLatest(contacts, k) && contacts[k].watch == watch <==>
      LatestOf(contacts, watch).Some? && LatestOf(contacts, watch).value.url == contacts[k].url
  {
    assert contacts[k] in contacts;
    if LatestOf(contacts, watch).Some? {
      var l := LatestAt(contacts, watch);
      assert l != k ==> contacts[l].url != contacts[k].url;
    }
  }

  /** Two tables with the same claims: listing, watch and time. */
  ghost predicate ClaimsKept(before: seq<Contact>, after: seq<Contact>) {
    && |before| <= |after|
    && forall k | 0 <= k < |before| :: after[k] == before[k].(status := after[k].status)
  }

  /** No step drops or restamps a claim, so a refusal for being known is final. */
  lemma {:induction false} ClaimsAreForever(start: System, steps: seq<Step>)
    ensures ClaimsKept(start.contacts, Run(start, steps).contacts)
    ensures forall url | Known(start.contacts, url) :: Known(Run(start, steps).contacts, url)
  {
    if steps != [] {
      ClaimsAreForever(start, steps[..|steps| - 1]);
    }
    var after := Run(start, steps).contacts;
    forall url | Known(start.contacts, url) ensures Known(after, url) {
      var k :| 0 <= k < |start.contacts| && start.contacts[k].url == url;
      assert after[k] in after;
    }
  }

  lemma GrantedClaim(sys: System, step: Step, from: int, to: int, cutoff: int)
    requires step.Claim? && step.worker !in sys.flights && !Known(sys.contacts, step.url)
    requires CountSince(sys.contacts, step.checked - DAY) < DAILY
    ensures var next := Exec(sys, step);
      && next.flights == sys.flights[step.worker := Claimed(step.url)]
      && (forall u :: Known(next.contacts, u) ==> u == step.url || Known(sys.contacts, u))
      && CountIn(next.contacts, from, to) == CountIn(sys.contacts, from, to) + (if from <= step.stamped < to then 1 else 0)
      && CountSince(next.contacts, cutoff) == CountSince(sys.contacts, cutoff) + if step.stamped > cutoff then 1 else 0
  {
    var next := Exec(sys, step);
    assert next.contacts == sys.contacts + [Contact(step.url, step.watch, step.stamped, "attempted")];
    assert next.contacts[..|next.contacts| - 1] == sys.contacts;
  }

  lemma TwoMoreClaims(sys: System, first: Step, second: Step, at: int)
    requires first.Claim? && second.Claim? && first.worker != second.worker && first.url != second.url
    requires first.worker !in sys.flights && second.worker !in sys.flights
    requires !Known(sys.contacts, first.url) && !Known(sys.contacts, second.url)
    requires first.checked == second.checked == first.stamped == second.stamped == at && 0 <= at <= DAY
    requires CountSince(sys.contacts, at - DAY) == 0
    ensures var next := Exec(Exec(sys, first), second);
      && next.flights == sys.flights[first.worker := Claimed(first.url)][second.worker := Claimed(second.url)]
      && (forall u :: Known(next.contacts, u) ==> u == first.url || u == second.url || Known(sys.contacts, u))
      && CountIn(next.contacts, 0, DAY + 1) == CountIn(sys.contacts, 0, DAY + 1) + 2
      && CountSince(next.contacts, at) == CountSince(sys.contacts, at)
  {
    GrantedClaim(sys, first, 0, DAY + 1, at - DAY);
    GrantedClaim(sys, first, 0, DAY + 1, at);
    GrantedClaim(Exec(sys, first), second, 0, DAY + 1, at);
  }

  /** The bound is tight: two claims at each end of a closed window make four. */
  lemma ClosedWindowMayHoldFour()
    ensures exists sys :: Reachable(sys) && CountIn(sys.contacts, 0, DAY + 1) == 4
  {
    var a, b := Claim(1, "w", "a", 0, 0), Claim(2, "w", "b", 0, 0);
    var c, d := Claim(3, "w", "c", DAY, DAY), Claim(4, "w", "d", DAY, DAY);
    assert "a"[0] == 'a' && "b"[0] == 'b' && "c"[0] == 'c' && "d"[0] == 'd';
    TwoMoreClaims(INITIAL, a, b, 0);
    TwoMoreClaims(Exec(Exec(INITIAL, a), b), c, d, DAY);
    ReachableByFour(a, b, c, d);
  }

  lemma ReachableByFour(a: Step, b: Step, c: Step, d: Step)
    requires Steady(a) && Steady(b) && Steady(c) && Steady(d)
    ensures Reachable(Exec(Exec(Exec(Exec(INITIAL, a), b), c), d))
  {
    RunOfFour(INITIAL, a, b, c, d);
    var steps := [a, b, c, d];
    assert forall s <- steps :: Steady(s);
  }

  lemma RunOfFour(start: System, a: Step, b: Step, c: Step, d: Step)
    ensures Run(start, [a, b, c, d]) == Exec(Exec(Exec(Exec(start, a), b), c), d)
  {
    assert [a, b, c, d][..3] == [a, b, c] && [a, b, c][..2] == [a, b] && [a, b][..1] == [a] && [a][..0] == [];
    assert Run(start, [a]) == Exec(Run(start, []), a);
    assert Run(start, [a, b]) == Exec(Run(start, [a]), b);
    assert Run(start, [a, b, c]) == Exec(Run(start, [a, b]), c);
  }
}
