/**
 Reading the primary Google calendar page by page (google_readonly.py). The service keeps one list of matching
 events; a page token is a position in it. How many items a page holds, whether a token is offered although
 nothing is left, and whether a request fails are up to the service.
*/
module GoogleReadonly {
  import opened Wrappers

  const MAX_ITEMS := 50
  const MAX_PAGES := 3

  datatype Error =
    | InvalidLimit
    | InvalidPageLimit
    | RequestFailed
    | InvalidShape
    | InvalidId
    | InvalidTime
    | FieldTooLarge

  /** A start or end as sent: a date, a clock time with its zone, or neither; None is text that does not parse. */
  datatype RawTime = NoTime | DateText(day: Option<int>) | ClockText(instant: Option<int>)

  datatype RawEvent =
    | NotAnObject
    | RawEvent(id: Option<int>, start: RawTime, end: RawTime, cancelled: bool, transparent: bool, fits: bool)

  datatype Time = OnDay(day: int) | AtInstant(instant: int)

  datatype Item = Item(id: int, start: Time, end: Time, cancelled: bool, transparent: bool)

  /** What the service does with one request: fail, or send up to `size` items and perhaps a token too many. */
  datatype Turn = Fails | Sends(size: nat, lingers: bool)

  datatype Listing = Listing(items: seq<Item>, truncated: bool, pages: nat)

  function ParseTime(raw: RawTime): Result<Time, Error> {
    match raw
    case DateText(Some(day)) => Ok(OnDay(day))
    case ClockText(Some(t)) => Ok(AtInstant(t))
    case _ => Err(InvalidTime)
  }

  function ParseEvent(raw: RawEvent): Result<Item, Error> {
    if raw.NotAnObject? then Err(InvalidShape)
    else if raw.id.None? then Err(InvalidId)
    else
      var start, end := ParseTime(raw.start), ParseTime(raw.end);
      if start.Err? then Err(start.error)
      else if end.Err? then Err(end.error)
      else if start.value.OnDay? != end.value.OnDay? then Err(InvalidTime)
      else if !raw.fits then Err(FieldTooLarge)
      else Ok(Item(raw.id.value, start.value, end.value, raw.cancelled, raw.transparent))
  }

  /** Two times of one kind, a date or an instant each. */
  predicate TimesAre(raw: RawEvent, item: Item)
    requires raw.RawEvent?
  {
    || (item.start.OnDay? && item.end.OnDay?
        && raw.start == DateText(Some(item.start.day)) && raw.end == DateText(Some(item.end.day)))
    || (item.start.AtInstant? && item.end.AtInstant?
        && raw.start == ClockText(Some(item.start.instant)) && raw.end == ClockText(Some(item.end.instant)))
  }

  /** An event is read exactly as it was sent: id, both times of one kind, both flags, and nothing too large. */
  lemma ParsedExactlyWhen(raw: RawEvent, item: Item)
    ensures ParseEvent(raw) == Ok(item) <==>
      && raw.RawEvent? && raw.id == Some(item.id) && TimesAre(raw, item) && raw.fits
      && raw.cancelled == item.cancelled && raw.transparent == item.transparent
  {
  }

  predicate AllParse(raws: seq<RawEvent>) {
    forall raw <- raws :: ParseEvent(raw).Ok?
  }

  function ParseAll(raws: seq<RawEvent>): (items: seq<Item>)
    requires AllParse(raws)
    ensures |items| == |raws|
  {
    seq(|raws|, k requires 0 <= k < |raws| => ParseEvent(raws[k]).value)
  }

  function Least(a: nat, b: nat): nat {
    if a < b then a else b
  }

  /** Parse one page, stopping at the first malformed event. */
  method ParsePage(page: seq<RawEvent>) returns (r: Result<seq<Item>, Error>)
    ensures r.Ok? <==> AllParse(page)
    ensures r.Ok? ==> r.value == ParseAll(page)
  {
    var items := [];
    for k := 0 to |page|
      invariant AllParse(page[..k]) && items == ParseAll(page[..k])
    {
      var item := ParseEvent(page[k]);
      if item.Err? {
        assert page[k] in page;
        return Err(item.error);
      }
      assert page[..k + 1] == page[..k] + [page[k]];
      items := items + [item.value];
    }
    assert page[..|page|] == page;
    r := Ok(items);
  }

  lemma ParseConcat(a: seq<RawEvent>, b: seq<RawEvent>)
    requires AllParse(a) && AllParse(b)
    ensures AllParse(a + b) && ParseAll(a + b) == ParseAll(a) + ParseAll(b)
  {
  }

  /** How many events the first pages have sent, were the list long enough. */
  function Sent(turn: nat -> Turn, pages: nat): nat {
    if pages == 0 then 0
    else Sent(turn, pages - 1) + if turn(pages - 1).Sends? then turn(pages - 1).size else 0
  }

  /** How many of them are read: neither more than there are nor more than asked for. */
  function ReadBy(full: seq<RawEvent>, turn: nat -> Turn, limit: nat, pages: nat): nat {
    Least(limit, Least(Sent(turn, pages), |full|))
  }

  predicate TokenAfter(full: seq<RawEvent>, turn: nat -> Turn, pages: nat)
    requires pages > 0 && turn(pages - 1).Sends?
  {
    Sent(turn, pages) < |full| || turn(pages - 1).lingers
  }

  /** Enough was read, or no token was offered. */
  predicate EndsAfter(full: seq<RawEvent>, turn: nat -> Turn, limit: nat, pages: nat)
    requires pages > 0 && turn(pages - 1).Sends?
  {
    ReadBy(full, turn, limit, pages) == limit || !TokenAfter(full, turn, pages)
  }

  predicate GoesOn(full: seq<RawEvent>, turn: nat -> Turn, limit: nat, pages: nat)
    requires pages > 0
  {
    turn(pages - 1).Sends? && !EndsAfter(full, turn, limit, pages)
  }

  /** Nothing ends the reading before that many pages. */
  ghost predicate Reaches(full: seq<RawEvent>, turn: nat -> Turn, limit: nat, pages: nat) {
    forall k | 1 <= k < pages :: GoesOn(full, turn, limit, k)
  }

  /** The reading ended with that page. */
  ghost predicate Ended(full: seq<RawEvent>, turn: nat -> Turn, limit: nat, maxPages: nat, pages: nat) {
    && 1 <= pages <= maxPages && Reaches(full, turn, limit, pages) && turn(pages - 1).Sends?
    && (EndsAfter(full, turn, limit, pages) || pages == maxPages)
  }

  /** Fewer events were read by then than the list holds, or a token was offered for nothing. */
  predicate CutShort(full: seq<RawEvent>, turn: nat -> Turn, limit: nat, pages: nat)
    requires pages > 0 && turn(pages - 1).Sends?
  {
    ReadBy(full, turn, limit, pages) < |full| || turn(pages - 1).lingers
  }

  /** A reading ends with one page at most. */
  lemma EndIsUnique(full: seq<RawEvent>, turn: nat -> Turn, limit: nat, maxPages: nat, m: nat, n: nat)
    requires Ended(full, turn, limit, maxPages, m) && Ended(full, turn, limit, maxPages, n)
    ensures m == n
  {
    assert m < n ==> GoesOn(full, turn, limit, m);
    assert n < m ==> GoesOn(full, turn, limit, n);
  }

  lemma OneMorePage(full: seq<RawEvent>, turn: nat -> Turn, limit: nat, pages: nat)
    requires Reaches(full, turn, limit, pages) && ReadBy(full, turn, limit, pages) < limit
    requires pages > 0 ==> turn(pages - 1).Sends? && TokenAfter(full, turn, pages)
    ensures Reaches(full, turn, limit, pages + 1)
  {
  }

  /** The request for page n fails, or one of the events read by then is malformed. */
  ghost predicate FailsAt(full: seq<RawEvent>, turn: nat -> Turn, limit: nat, n: nat)
    requires n > 0
  {
    && Reaches(full, turn, limit, n)
    && (turn(n - 1).Fails? || exists raw <- full[..ReadBy(full, turn, limit, n)] :: ParseEvent(raw).Err?)
  }

  /** One answered request: the events it adds, where the service has got to, and whether some were cut off. */
  method TakePage(full: seq<RawEvent>, turn: nat -> Turn, limit: nat, pages: nat, position: nat)
    returns (r: Result<seq<Item>, Error>, next: nat, cut: bool)
    requires position == Least(Sent(turn, pages), |full|) < limit && turn(pages).Sends?
    ensures next == Least(Sent(turn, pages + 1), |full|) && position <= ReadBy(full, turn, limit, pages + 1) <= next
    ensures var read := ReadBy(full, turn, limit, pages + 1);
      && (cut <==> read < next)
      && (r.Ok? ==> AllParse(full[position..read]) && r.value == ParseAll(full[position..read]))
      && (r.Err? ==> exists raw <- full[..read] :: ParseEvent(raw).Err?)
  {
    assert Sent(turn, pages + 1) == Sent(turn, pages) + turn(pages).size;
    next := Least(position + turn(pages).size, |full|);
    var remaining := limit - position;
    cut := next - position > remaining;
    var taken := full[position..position + Least(remaining, next - position)];
    r := ParsePage(taken);
    if r.Err? {
      ghost var k :| 0 <= k < |taken| && ParseEvent(taken[k]).Err?;
      assert full[..position + |taken|][position + k] == taken[k];
    }
  }

  lemma ParseMore(full: seq<RawEvent>, from: nat, last: nat)
    requires from <= last <= |full| && AllParse(full[..from]) && AllParse(full[from..last])
    ensures AllParse(full[..last]) && ParseAll(full[..last]) == ParseAll(full[..from]) + ParseAll(full[from..last])
  {
    ParseConcat(full[..from], full[from..last]);
    assert full[..from] + full[from..last] == full[..last];
  }

  /**
   `upcoming_events`. The items are a prefix of the service's list, in its order, and which one is determined
   by the pages. The truncation flag is exact up to a token the service offers for nothing: unset, the whole
   list was read.
  */
  method UpcomingEvents(full: seq<RawEvent>, turn: nat -> Turn, limit: int, maxPages: int)
    returns (r: Result<Listing, Error>)
    ensures r.Ok? ==>
      var listing := r.value;
      var read := |listing.items|;
      && 1 <= limit <= 50 && 0 <= maxPages <= 3 && Ended(full, turn, limit, maxPages, listing.pages)
      && read == ReadBy(full, turn, limit, listing.pages)
      && AllParse(full[..read]) && listing.items == ParseAll(full[..read])
      && (listing.truncated <==> CutShort(full, turn, limit, listing.pages))
    ensures r.Err? ==>
      || !(1 <= limit <= 50) || !(1 <= maxPages <= 3)
      || exists n: nat | 1 <= n <= maxPages :: FailsAt(full, turn, limit, n)
  {
    if !(1 <= limit <= MAX_ITEMS) {
      return Err(InvalidLimit);
    }
    if !(1 <= maxPages <= MAX_PAGES) {
      return Err(InvalidPageLimit);
    }
    var items, position, token, pages, cut := [], 0, true, 0, false;
    while |items| < limit && pages < maxPages
      invariant 0 <= pages <= maxPages && Reaches(full, turn, limit, pages)
      invariant position == Least(Sent(turn, pages), |full|) && |items| == Least(limit, position)
      invariant cut <==> |items| < position
      invariant AllParse(full[..|items|]) && items == ParseAll(full[..|items|])
      invariant pages > 0 ==> turn(pages - 1).Sends? && token && TokenAfter(full, turn, pages)
      decreases maxPages - pages
    {
      var answer := turn(pages);
      OneMorePage(full, turn, limit, pages);
      if answer.Fails? {
        assert FailsAt(full, turn, limit, pages + 1);
        return Err(RequestFailed);
      }
      var parsed, next, over := TakePage(full, turn, limit, pages, position);
      if parsed.Err? {
        assert FailsAt(full, turn, limit, pages + 1);
        return Err(parsed.error);
      }
      ParseMore(full, position, ReadBy(full, turn, limit, pages + 1));
      items := items + parsed.value;
      position, cut := next, over;
      pages := pages + 1;
      token := position < |full| || answer.lingers;
      if !token {
        break;
      }
    }
    r := Ok(Listing(items, token || cut, pages));
  }

  /** A service that sends everything at once and keeps no token is believed: all of it is read, or a flaw is found. */
  lemma OnePageIsEnough(full: seq<RawEvent>, turn: nat -> Turn, limit: nat, n: nat)
    requires turn(0).Sends? && turn(0).size >= |full| && !turn(0).lingers
    requires n >= 1 && Reaches(full, turn, limit, n)
    ensures n == 1 && ReadBy(full, turn, limit, n) == Least(limit, |full|)
  {
    assert Sent(turn, 1) == Sent(turn, 0) + turn(0).size;
    assert !GoesOn(full, turn, limit, 1);
  }
}
