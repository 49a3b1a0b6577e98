/**
 When a seller is answered (shopper_schedule.py). Instants are seconds of one wall clock with days of 24 hours.
 The delay drawn from the conversation's digest is a parameter.
*/
module ReplySchedule {
  import opened Wrappers

  const MINUTE := 60
  const HOUR := 3600
  const DAY := 86_400

  predicate ValidHours(startHour: int, latestHour: int) {
    0 <= startHour < latestHour <= 23
  }

  /** 15 to 45 minutes, the same for one digest. */
  function Delay(digest: nat): (delay: int)
    ensures 15 * MINUTE <= delay <= 45 * MINUTE
  {
    (15 + digest % 31) * MINUTE
  }

  function Midnight(t: int): int {
    t - t % DAY
  }

  function ReplyDue(received: int, digest: nat, startHour: int, latestHour: int): (due: Option<int>)
    ensures due.Some? <==> ValidHours(startHour, latestHour)
  {
    if !ValidHours(startHour, latestHour) then None
    else
      var planned := received + Delay(digest);
      var opening := Midnight(received) + startHour * HOUR;
      var closing := Midnight(received) + latestHour * HOUR;
      if planned < opening then Some(opening + Delay(digest))
      else if planned >= closing then Some(opening + DAY + Delay(digest))
      else Some(planned)
  }

  /** Between opening and closing of its own day. */
  predicate InHours(t: int, startHour: int, latestHour: int) {
    Midnight(t) + startHour * HOUR <= t < Midnight(t) + latestHour * HOUR
  }

  /** A reply could be started at t: t is within hours, and so is the end of the wait. */
  predicate Fits(t: int, delay: int, startHour: int, latestHour: int) {
    InHours(t, startHour, latestHour) && t + delay < Midnight(t) + latestHour * HOUR
  }

  /** The first opening time at or after an instant. */
  function NextOpening(t: int, startHour: int): int {
    var today := Midnight(t) + startHour * HOUR;
    if t <= today then today else today + DAY
  }

  lemma SameDay(midnight: int, offset: int)
    requires midnight % DAY == 0 && 0 <= offset < DAY
    ensures Midnight(midnight + offset) == midnight
  {
  }

  lemma DayOrder(t: int, u: int)
    requires t <= u
    ensures Midnight(t) % DAY == 0 && Midnight(t) <= t < Midnight(t) + DAY
    ensures Midnight(u) == Midnight(t) || Midnight(u) >= Midnight(t) + DAY
  {
  }

  /** The next opening is an opening, is not past, and none lies between. */
  lemma NextOpeningIsNext(t: int, startHour: int, u: int)
    requires 0 <= startHour < 24
    ensures var next := NextOpening(t, startHour);
      && t <= next < t + DAY && next == Midnight(next) + startHour * HOUR
      && (t <= u && u == Midnight(u) + startHour * HOUR ==> next <= u)
  {
    DayOrder(t, t);
    SameDay(Midnight(t), startHour * HOUR);
    SameDay(Midnight(t) + DAY, startHour * HOUR);
    if t <= u {
      DayOrder(t, u);
    }
  }

  /**
   For all hours and times: an answer is due within opening hours, at least fifteen minutes after the message,
   and no later than forty-five minutes after the next opening.
  */
  lemma ReplyIsTimely(received: int, digest: nat, startHour: int, latestHour: int)
    requires ValidHours(startHour, latestHour)
    ensures var due := ReplyDue(received, digest, startHour, latestHour).value;
      && InHours(due, startHour, latestHour)
      && received + 15 * MINUTE <= due <= NextOpening(received, startHour) + 45 * MINUTE
  {
    var due := ReplyDue(received, digest, startHour, latestHour).value;
    DayOrder(received, received);
    if due < Midnight(received) + DAY {
      SameDay(Midnight(received), due - Midnight(received));
    } else {
      SameDay(Midnight(received) + DAY, due - Midnight(received) - DAY);
    }
  }

  /** Nor does it wait longer than needed: from no moment at which the wait would fit would it be answered sooner. */
  lemma ReplyIsPrompt(received: int, digest: nat, startHour: int, latestHour: int, t: int)
    requires ValidHours(startHour, latestHour) && received <= t && Fits(t, Delay(digest), startHour, latestHour)
    ensures ReplyDue(received, digest, startHour, latestHour).value <= t + Delay(digest)
  {
    DayOrder(received, t);
  }

  /** The wait may begin then: at receipt, if it ends within the hours of that day, or at a moment that fits. */
  predicate Startable(received: int, t: int, delay: int, startHour: int, latestHour: int) {
    && received <= t
    && (|| (t == received
            && Midnight(received) + startHour * HOUR <= received + delay < Midnight(received) + latestHour * HOUR)
        || Fits(t, delay, startHour, latestHour))
  }

  lemma DueIsStartable(received: int, digest: nat, startHour: int, latestHour: int)
    requires ValidHours(startHour, latestHour)
    ensures var delay := Delay(digest);
      Startable(received, ReplyDue(received, digest, startHour, latestHour).value - delay, delay, startHour, latestHour)
  {
    DayOrder(received, received);
    SameDay(Midnight(received), startHour * HOUR);
    SameDay(Midnight(received) + DAY, startHour * HOUR);
  }

  /** An answer is due exactly at the first moment at which a wait that may begin has ended. */
  lemma ReplyDueExactlyWhen(received: int, digest: nat, startHour: int, latestHour: int, due: int)
    requires ValidHours(startHour, latestHour)
    ensures var delay := Delay(digest);
      ReplyDue(received, digest, startHour, latestHour) == Some(due) <==>
        && Startable(received, due - delay, delay, startHour, latestHour)
        && forall t | Startable(received, t, delay, startHour, latestHour) :: due <= t + delay
  {
    var delay, found := Delay(digest), ReplyDue(received, digest, startHour, latestHour).value;
    DueIsStartable(received, digest, startHour, latestHour);
    forall t | Startable(received, t, delay, startHour, latestHour) ensures found <= t + delay {
      if Fits(t, delay, startHour, latestHour) {
        ReplyIsPrompt(received, digest, startHour, latestHour, t);
      }
    }
  }

  /** The opening a reply is put off to, if its wait does not end within the hours of the day of receipt. */
  function PutOffTo(received: int, digest: nat, startHour: int, latestHour: int): Option<int> {
    var planned := received + Delay(digest);
    var opening := Midnight(received) + startHour * HOUR;
    if planned < opening then Some(opening)
    else if planned >= Midnight(received) + latestHour * HOUR then Some(opening + DAY)
    else None
  }

  /** The later message is answered before the earlier one. */
  predicate Overtakes(first: int, firstDigest: nat, second: int, secondDigest: nat, startHour: int, latestHour: int)
    requires ValidHours(startHour, latestHour)
  {
    ReplyDue(second, secondDigest, startHour, latestHour).value < ReplyDue(first, firstDigest, startHour, latestHour).value
  }

  /**
   Exactly when a later message is answered first, each with the delay of its own digest. If neither is put off,
   its delay must be shorter by more than the time between them. If both are put off, it must be to the same
   opening, with the shorter delay. If one is, its opening stands for its receipt.
  */
  lemma OvertakesExactlyWhen(
    first: int, firstDigest: nat, second: int, secondDigest: nat, startHour: int, latestHour: int)
    requires ValidHours(startHour, latestHour) && first <= second
    ensures Overtakes(first, firstDigest, second, secondDigest, startHour, latestHour) <==>
      var shorter := Delay(firstDigest) - Delay(secondDigest);
      match (PutOffTo(first, firstDigest, startHour, latestHour), PutOffTo(second, secondDigest, startHour, latestHour))
      case (None, None) => second - first < shorter
      case (Some(a), Some(b)) => a == b && 0 < shorter
      case (Some(a), None) => second - a < shorter
      case (None, Some(b)) => b - first < shorter
  {
    DayOrder(first, second);
  }

  /** The earlier message is overtaken by more than 45 minutes exactly when it alone is put off overnight. */
  lemma OvertakenByANight(first: int, firstDigest: nat, second: int, secondDigest: nat, startHour: int, latestHour: int)
    requires ValidHours(startHour, latestHour) && first <= second
    ensures var due := ReplyDue(first, firstDigest, startHour, latestHour).value;
      var ahead := ReplyDue(second, secondDigest, startHour, latestHour).value;
      var opening := PutOffTo(first, firstDigest, startHour, latestHour);
      due - ahead > 45 * MINUTE <==>
        && opening.Some? && PutOffTo(second, secondDigest, startHour, latestHour).None?
        && Midnight(second) < Midnight(opening.value)
  {
    DayOrder(first, second);
    SameDay(Midnight(first), startHour * HOUR);
    SameDay(Midnight(first) + DAY, startHour * HOUR);
  }

  /** With equal delays only putting off changes the order: the later message came just before that opening. */
  lemma EqualDelaysKeepOrderUnlessPutOff(first: int, second: int, digest: nat, startHour: int, latestHour: int)
    requires ValidHours(startHour, latestHour) && first <= second
    ensures var opening := Midnight(second) + startHour * HOUR;
      var lastClosing := Midnight(second) - DAY + latestHour * HOUR;
      Overtakes(first, digest, second, digest, startHour, latestHour) <==>
        second < opening <= second + Delay(digest) && lastClosing <= first + Delay(digest) < opening
  {
    DayOrder(first, second);
  }

  /** In the middle of a day, with nothing put off: received at 10:00 and due 10:45, received at 10:01 and due 10:16. */
  lemma LaterMessageMayBeAnsweredFirst()
    ensures ReplyDue(10 * HOUR, 30, 8, 23) == Some(10 * HOUR + 45 * MINUTE)
    ensures ReplyDue(10 * HOUR + MINUTE, 0, 8, 23) == Some(10 * HOUR + 16 * MINUTE)
    ensures Overtakes(10 * HOUR, 30, 10 * HOUR + MINUTE, 0, 8, 23)
  {
  }
}
