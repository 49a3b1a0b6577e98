/**
 Free time in the owner's real calendar (calendar_planner.py), on top of the paginated reading of Google
 Calendar, the optional school agenda (magister_agenda.py) and the sweep of planner_preview.py.
*/
module CalendarPlanner {
  import opened Wrappers
  import opened PlannerPreview
  import Google = GoogleReadonly

  const SCHOOL_SHOWN := 50

  datatype Request = Request(period: string, minutes: int, dayStart: Option<nat>, dayEnd: Option<nat>)

  datatype Lesson = Lesson(id: int, start: int, end: int, wellFormed: bool)

  /** The school agenda: not asked for, out of reach, or the appointments its service holds for the period. */
  datatype School = Off | Unreachable | Agenda(lessons: seq<Lesson>)

  datatype Lessons = Lessons(items: seq<Google.Item>, truncated: bool)

  datatype Answer =
    | Completed(slots: seq<Slot>)
    | IncompleteCalendar
    | SchoolUnreachable
    | IncompleteSchool

  datatype Error = InvalidRequest | InvalidWindow | UnknownBusyTime | CalendarFailed(error: Google.Error)

  /** A clock time is a minute of the day; anything else was refused. */
  predicate ValidClock(clock: Option<nat>) {
    clock.Some? && clock.value < 1440
  }

  predicate ValidRequest(request: Request) {
    request.period in {"today", "tomorrow", "week"} && 15 <= request.minutes <= 480
  }

  predicate ValidWindow(request: Request) {
    ValidClock(request.dayStart) && ValidClock(request.dayEnd) && request.dayStart.value < request.dayEnd.value
  }

  function PeriodStart(period: string, now: int): int {
    Midnight(DayOf(now) + if period == "tomorrow" then 1 else 0)
  }

  function PeriodEnd(period: string, now: int): int {
    Midnight(DayOf(now) + if period == "week" then 7 else if period == "tomorrow" then 2 else 1)
  }

  /** The first whole minute that is not in the past. */
  function RoundedUp(now: int): (t: int)
    ensures now <= t < now + MINUTE && t % MINUTE == 0
  {
    now - now % MINUTE + if now % MINUTE > 0 then MINUTE else 0
  }

  function SearchOf(request: Request, now: int): (q: Search)
    requires ValidRequest(request) && ValidWindow(request)
    ensures ValidSearch(q) && q.start >= now && q.start >= PeriodStart(request.period, now)
  {
    Search(
      Max(PeriodStart(request.period, now), RoundedUp(now)), PeriodEnd(request.period, now),
      request.dayStart.value * MINUTE, request.dayEnd.value * MINUTE, request.minutes * MINUTE)
  }

  function Instant(time: Google.Time): int {
    match time
    case OnDay(day) => Midnight(day)
    case AtInstant(t) => t
  }

  /** Cancelled and transparent items do not make the owner busy. */
  predicate Blocks(item: Google.Item) {
    !item.cancelled && !item.transparent
  }

  function EventOf(item: Google.Item): Event {
    Event(item.id, Instant(item.start), Instant(item.end))
  }

  function BusyEvents(items: seq<Google.Item>): seq<Event> {
    if items == [] then []
    else
      var last := items[|items| - 1];
      BusyEvents(items[..|items| - 1]) + if Blocks(last) then [EventOf(last)] else []
  }

  lemma {:induction false} BusyMembers(items: seq<Google.Item>)
    ensures forall item <- items | Blocks(item) :: EventOf(item) in BusyEvents(items)
    ensures forall e <- BusyEvents(items) :: exists item <- items :: Blocks(item) && EventOf(item) == e
  {
    if items != [] {
      BusyMembers(items[..|items| - 1]);
    }
  }

  lemma {:induction false} BusyConcat(a: seq<Google.Item>, b: seq<Google.Item>)
    ensures BusyEvents(a + b) == BusyEvents(a) + BusyEvents(b)
    decreases |b|
  {
    if b == [] {
      assert a + b == a;
    } else {
      assert (a + b)[..|a + b| - 1] == a + b[..|b| - 1];
      BusyConcat(a, b[..|b| - 1]);
    }
  }

  /** The filter loop; a busy item that ends before it starts stops everything. */
  method BusyTimes(items: seq<Google.Item>) returns (r: Result<seq<Event>, Error>)
    ensures r.Ok? <==> forall e <- BusyEvents(items) :: ValidEvent(e)
    ensures r.Ok? ==> r.value == BusyEvents(items)
    ensures r.Err? ==> r.error == UnknownBusyTime
  {
    var events := [];
    for k := 0 to |items|
      invariant events == BusyEvents(items[..k]) && forall e <- events :: ValidEvent(e)
    {
      var item := items[k];
      assert items[..k + 1][..k] == items[..k];
      if Blocks(item) {
        var e := EventOf(item);
        if e.end <= e.start {
          assert items == items[..k + 1] + items[k + 1..] && e in BusyEvents(items[..k + 1]);
          BusyConcat(items[..k + 1], items[k + 1..]);
          assert e in BusyEvents(items);
          return Err(UnknownBusyTime);
        }
        events := events + [e];
      }
    }
    assert items[..|items|] == items;
    r := Ok(events);
  }

  // ----- what the services hold -----

  /** The calendar service answers with the events that meet the period; it cannot exclude unreadable ones. */
  predicate Matches(raw: Google.RawEvent, start: int, end: int) {
    var item := Google.ParseEvent(raw);
    item.Err? || Instant(item.value.end) <= Instant(item.value.start)
    || Overlaps(start, end, Instant(item.value.start), Instant(item.value.end))
  }

  function Matching(calendar: seq<Google.RawEvent>, start: int, end: int): (found: seq<Google.RawEvent>)
    ensures forall raw :: raw in found <==> raw in calendar && Matches(raw, start, end)
  {
    if calendar == [] then []
    else (if Matches(calendar[0], start, end) then [calendar[0]] else []) + Matching(calendar[1..], start, end)
  }

  predicate ReadableLesson(lesson: Lesson) {
    lesson.wellFormed && lesson.start < lesson.end
  }

  function LessonItem(lesson: Lesson): Google.Item {
    Google.Item(lesson.id, Google.AtInstant(lesson.start), Google.AtInstant(lesson.end), false, false)
  }

  function LessonsWithin(lessons: seq<Lesson>, start: int, end: int): seq<Google.Item> {
    if lessons == [] then []
    else
      var last := lessons[|lessons| - 1];
      LessonsWithin(lessons[..|lessons| - 1], start, end)
      + if last.end <= start || last.start >= end then [] else [LessonItem(last)]
  }

  /** `magister_agenda.preview`: the first fifty lessons, cut to the period, and whether there were more. */
  method SchoolPreview(lessons: seq<Lesson>, start: int, end: int) returns (r: Option<Lessons>)
    ensures var page := ShownLessons(lessons);
      && (r.Some? <==> forall lesson <- page :: ReadableLesson(lesson))
      && (r.Some? ==> r.value == Lessons(LessonsWithin(page, start, end), |lessons| > SCHOOL_SHOWN))
  {
    var page := ShownLessons(lessons);
    var items := [];
    for k := 0 to |page|
      invariant items == LessonsWithin(page[..k], start, end) && forall j | 0 <= j < k :: ReadableLesson(page[j])
    {
      var lesson := page[k];
      assert page[..k + 1][..k] == page[..k];
      if !ReadableLesson(lesson) {
        assert lesson in page;
        return None;
      }
      if !(lesson.end <= start || lesson.start >= end) {
        items := items + [LessonItem(lesson)];
      }
    }
    assert page[..|page|] == page;
    r := Some(Lessons(items, |lessons| > |page|));
  }

  lemma {:induction false} LessonMembers(lessons: seq<Lesson>, start: int, end: int)
    ensures forall lesson <- lessons | Overlaps(start, end, lesson.start, lesson.end) ::
      LessonItem(lesson) in LessonsWithin(lessons, start, end)
    ensures forall item <- LessonsWithin(lessons, start, end) :: exists lesson <- lessons :: item == LessonItem(lesson)
  {
    if lessons != [] {
      LessonMembers(lessons[..|lessons| - 1], start, end);
    }
  }

  // ----- what an answer promises -----

  /** The item blocks some of the interval; a date stands for the midnight it begins with. */
  predicate BusyDuring(item: Google.Item, a: int, b: int) {
    && !item.cancelled && !item.transparent
    && a < (if item.end.OnDay? then item.end.day * 86_400_000_000 else item.end.instant)
    && (if item.start.OnDay? then item.start.day * 86_400_000_000 else item.start.instant) < b
  }

  /** An interval meets nothing that makes the owner busy, in the whole calendar and the whole school agenda. */
  ghost predicate ReallyFree(calendar: seq<Google.RawEvent>, school: School, a: int, b: int) {
    && (forall raw <- calendar | Google.ParseEvent(raw).Ok? ::
          !BusyDuring(Google.ParseEvent(raw).value, a, b))
    && (school.Agenda? ==> forall lesson <- school.lessons :: !(a < lesson.end && lesson.start < b))
  }

  /** The items read stand for everything that can meet the period. */
  ghost predicate Covers(
    items: seq<Google.Item>, calendar: seq<Google.RawEvent>, school: School, start: int, end: int)
  {
    && (forall raw <- calendar | Matches(raw, start, end) :: Google.ParseEvent(raw).Ok? && Google.ParseEvent(raw).value in items)
    && (school.Agenda? ==>
          forall lesson <- school.lessons | Overlaps(start, end, lesson.start, lesson.end) :: LessonItem(lesson) in items)
    && forall item <- items ::
         || (exists raw <- calendar :: Google.ParseEvent(raw) == Ok(item))
         || (school.Agenda? && exists lesson <- school.lessons :: ReadableLesson(lesson) && LessonItem(lesson) == item)
  }

  /** Inside the period, being free of the items read is being really free. */
  lemma FreeIsReallyFree(
    items: seq<Google.Item>, calendar: seq<Google.RawEvent>, school: School, start: int, end: int, a: int, b: int)
    requires Covers(items, calendar, school, start, end) && start <= a < b <= end
    requires forall e <- BusyEvents(items) :: ValidEvent(e)
    ensures IsFree(BusyEvents(items), a, b) <==> ReallyFree(calendar, school, a, b)
  {
    BusyMembers(items);
    if IsFree(BusyEvents(items), a, b) {
      forall raw <- calendar | Google.ParseEvent(raw).Ok?
        ensures !BusyDuring(Google.ParseEvent(raw).value, a, b)
      {
        var item := Google.ParseEvent(raw).value;
        if Matches(raw, start, end) && Blocks(item) {
          assert EventOf(item) in BusyEvents(items);
        }
      }
      if school.Agenda? {
        forall lesson <- school.lessons ensures !Overlaps(a, b, lesson.start, lesson.end) {
          if Overlaps(start, end, lesson.start, lesson.end) {
            assert EventOf(LessonItem(lesson)) in BusyEvents(items);
          }
        }
      }
    }
  }

  // ----- finding slots -----

  /** Everything read, or the answer that says why it was not. */
  datatype Reading = Everything(items: seq<Google.Item>) | Short(answer: Answer)

  /** The service sends the period's events at once, all of them readable, and at most fifty. */
  ghost predicate PlainCalendar(full: seq<Google.RawEvent>, turn: nat -> Google.Turn) {
    && turn(0).Sends? && turn(0).size >= |full| && !turn(0).lingers
    && |full| <= Google.MAX_ITEMS && Google.AllParse(full)
  }

  ghost predicate PlainSchool(school: School) {
    school.Off? || (school.Agenda? && |school.lessons| <= SCHOOL_SHOWN && forall lesson <- school.lessons :: ReadableLesson(lesson))
  }

  ghost predicate AllBusyValid(calendar: seq<Google.RawEvent>) {
    forall raw <- calendar | Google.ParseEvent(raw).Ok? && Blocks(Google.ParseEvent(raw).value) ::
      ValidEvent(EventOf(Google.ParseEvent(raw).value))
  }

  /** Read as far as the page limit allows, the calendar's list was not seen to its end, or not known to be. */
  ghost predicate CalendarCut(full: seq<Google.RawEvent>, turn: nat -> Google.Turn, maxPages: int) {
    exists n: nat | 1 <= n <= maxPages :: CutAt(full, turn, maxPages, n)
  }

  ghost predicate CutAt(full: seq<Google.RawEvent>, turn: nat -> Google.Turn, maxPages: nat, n: nat) {
    Google.Ended(full, turn, 50, maxPages, n) && Google.CutShort(full, turn, 50, n)
  }

  /** The lessons that are read. */
  function ShownLessons(lessons: seq<Lesson>): (page: seq<Lesson>)
    ensures page <= lessons && (page == lessons <==> |lessons| <= SCHOOL_SHOWN)
  {
    if |lessons| <= SCHOOL_SHOWN then lessons else lessons[..SCHOOL_SHOWN]
  }

  /** The school agenda could not be read, */
  predicate SchoolOut(school: School) {
    school.Unreachable? || (school.Agenda? && exists lesson <- ShownLessons(school.lessons) :: !ReadableLesson(lesson))
  }

  /** or not all of it. */
  predicate SchoolCut(school: School) {
    school.Agenda? && |school.lessons| > 50
  }

  /** What stands in an answer that is not completed, and that only then. */
  ghost predicate NamesWhatIsMissing(
    answer: Answer, full: seq<Google.RawEvent>, turn: nat -> Google.Turn, maxPages: int, school: School)
  {
    && (answer.IncompleteCalendar? <==> CalendarCut(full, turn, maxPages))
    && (answer.SchoolUnreachable? <==> !CalendarCut(full, turn, maxPages) && SchoolOut(school))
    && (answer.IncompleteSchool? <==> !CalendarCut(full, turn, maxPages) && !SchoolOut(school) && SchoolCut(school))
  }

  lemma ListingCovers(calendar: seq<Google.RawEvent>, start: int, end: int)
    requires Google.AllParse(Matching(calendar, start, end))
    ensures Covers(Google.ParseAll(Matching(calendar, start, end)), calendar, Off, start, end)
  {
    var full := Matching(calendar, start, end);
    var items := Google.ParseAll(full);
    forall raw <- calendar | Matches(raw, start, end)
      ensures Google.ParseEvent(raw).Ok? && Google.ParseEvent(raw).value in items
    {
      var k :| 0 <= k < |full| && full[k] == raw;
      assert items[k] == Google.ParseEvent(raw).value;
    }
    forall item <- items ensures exists raw <- calendar :: Google.ParseEvent(raw) == Ok(item) {
      var k :| 0 <= k < |items| && items[k] == item;
      assert full[k] in full;
    }
  }

  /** The calendar part of the reading. */
  method ReadCalendar(calendar: seq<Google.RawEvent>, turn: nat -> Google.Turn, maxPages: int, start: int, end: int)
    returns (r: Result<Reading, Error>)
    ensures r.Ok? && r.value.Everything? ==> Covers(r.value.items, calendar, Off, start, end)
    ensures r.Ok? ==> (r.value.Short? <==> CalendarCut(Matching(calendar, start, end), turn, maxPages))
    ensures r.Ok? && r.value.Short? ==> r.value.answer == IncompleteCalendar
    ensures 1 <= maxPages <= Google.MAX_PAGES && PlainCalendar(Matching(calendar, start, end), turn) ==>
      r.Ok? && r.value.Everything?
    ensures r.Err? ==> r.error.CalendarFailed?
  {
    var full := Matching(calendar, start, end);
    var listing := Google.UpcomingEvents(full, turn, Google.MAX_ITEMS, maxPages);
    if PlainCalendar(full, turn) {
      forall n: nat | n >= 1 && Google.Reaches(full, turn, Google.MAX_ITEMS, n)
        ensures n == 1 && Google.ReadBy(full, turn, Google.MAX_ITEMS, n) == |full|
      {
        Google.OnePageIsEnough(full, turn, Google.MAX_ITEMS, n);
      }
    }
    if listing.Err? {
      return Err(CalendarFailed(listing.error));
    }
    forall n: nat | 1 <= n <= maxPages && CutAt(full, turn, maxPages, n) ensures n == listing.value.pages {
      Google.EndIsUnique(full, turn, Google.MAX_ITEMS, maxPages, n, listing.value.pages);
    }
    assert listing.value.truncated <==> CutAt(full, turn, maxPages, listing.value.pages);
    if listing.value.truncated {
      return Ok(Short(IncompleteCalendar));
    }
    assert full[..|full|] == full;
    ListingCovers(calendar, start, end);
    r := Ok(Everything(listing.value.items));
  }

  lemma SchoolCovers(
    items: seq<Google.Item>, calendar: seq<Google.RawEvent>, lessons: seq<Lesson>, start: int, end: int)
    requires Covers(items, calendar, Off, start, end) && forall lesson <- lessons :: ReadableLesson(lesson)
    ensures Covers(items + LessonsWithin(lessons, start, end), calendar, Agenda(lessons), start, end)
  {
    LessonMembers(lessons, start, end);
  }

  /** The school part. */
  method AddSchool(items: seq<Google.Item>, school: School, start: int, end: int) returns (r: Reading)
    ensures r.Everything? ==> forall calendar :: Covers(items, calendar, Off, start, end) ==>
      Covers(r.items, calendar, school, start, end)
    ensures r == Short(SchoolUnreachable) <==> SchoolOut(school)
    ensures r == Short(IncompleteSchool) <==> !SchoolOut(school) && SchoolCut(school)
    ensures r.Short? ==> r.answer.SchoolUnreachable? || r.answer.IncompleteSchool?
    ensures PlainSchool(school) ==> r.Everything?
  {
    match school {
      case Off => r := Everything(items);
      case Unreachable => r := Short(SchoolUnreachable);
      case Agenda(lessons) =>
        var extra := SchoolPreview(lessons, start, end);
        if extra.None? {
          r := Short(SchoolUnreachable);
        } else if extra.value.truncated {
          r := Short(IncompleteSchool);
        } else {
          r := Everything(items + extra.value.items);
          forall calendar | Covers(items, calendar, Off, start, end)
            ensures Covers(r.items, calendar, school, start, end)
          {
            SchoolCovers(items, calendar, lessons, start, end);
          }
        }
    }
  }

  /** What a completed answer says: well-placed slots of the future, free in both agendas, and all of them if few. */
  ghost predicate Truthful(
    slots: seq<Slot>, q: Search, calendar: seq<Google.RawEvent>, school: School)
  {
    && |slots| <= SHOWN && WellPlaced(slots, q.start, q.end, q.duration)
    && (forall slot <- slots ::
          && ReallyFree(calendar, school, slot.start, slot.end)
          && exists day :: InHours(q, day, slot.start, slot.end))
    && (|slots| < SHOWN ==> forall a, b | b - a >= q.duration ::
          Holds(slots, a, b) <==> ReallyFree(calendar, school, a, b) && exists day :: InHours(q, day, a, b))
  }

  /** However many there are, none is passed over: what is free and fits before the last one's end lies in one. */
  ghost predicate FirstOnes(slots: seq<Slot>, q: Search, calendar: seq<Google.RawEvent>, school: School) {
    forall a, b | b - a >= q.duration && ReallyFree(calendar, school, a, b) && (exists day :: InHours(q, day, a, b)) ::
      |slots| > 0 && a < slots[|slots| - 1].end ==> Holds(slots, a, b)
  }

  lemma ShownSlotsAreTruthful(
    items: seq<Google.Item>, calendar: seq<Google.RawEvent>, school: School, start: int, q: Search)
    requires Covers(items, calendar, school, start, q.end) && start <= q.start && ValidSearch(q)
    requires forall e <- BusyEvents(items) :: ValidEvent(e)
    ensures Truthful(FirstSlots(AllSlots(BusyEvents(items), q)), q, calendar, school)
  {
    var events := BusyEvents(items);
    var all := AllSlots(events, q);
    var slots := FirstSlots(all);
    AllSlotsAreExact(events, q);
    forall a, b | b - a >= q.duration && exists day :: InHours(q, day, a, b)
      ensures IsFree(events, a, b) <==> ReallyFree(calendar, school, a, b)
    {
      FreeIsReallyFree(items, calendar, school, start, q.end, a, b);
    }
    forall slot <- slots
      ensures ReallyFree(calendar, school, slot.start, slot.end) && exists day :: InHours(q, day, slot.start, slot.end)
    {
      assert slot in all;
    }
  }

  lemma HeldByTheFirst(all: seq<Slot>, from: int, to: int, duration: int, a: int, b: int)
    requires WellPlaced(all, from, to, duration) && Holds(all, a, b)
    ensures var slots := FirstSlots(all); |slots| > 0 && a < slots[|slots| - 1].end ==> Holds(slots, a, b)
  {
    var slots := FirstSlots(all);
    var slot :| slot in all && slot.start <= a && b <= slot.end;
    var k :| 0 <= k < |all| && all[k] == slot;
    if |slots| > 0 && a < slots[|slots| - 1].end {
      assert slots[k] in slots;
    }
  }

  lemma ShownSlotsAreFirst(
    items: seq<Google.Item>, calendar: seq<Google.RawEvent>, school: School, start: int, q: Search)
    requires Covers(items, calendar, school, start, q.end) && start <= q.start && ValidSearch(q)
    requires forall e <- BusyEvents(items) :: ValidEvent(e)
    ensures FirstOnes(FirstSlots(AllSlots(BusyEvents(items), q)), q, calendar, school)
  {
    var events := BusyEvents(items);
    var all := AllSlots(events, q);
    AllSlotsAreExact(events, q);
    var slots := FirstSlots(all);
    forall a, b | b - a >= q.duration && ReallyFree(calendar, school, a, b) && exists day :: InHours(q, day, a, b)
      ensures |slots| > 0 && a < slots[|slots| - 1].end ==> Holds(slots, a, b)
    {
      FreeIsReallyFree(items, calendar, school, start, q.end, a, b);
      HeldByTheFirst(all, q.start, q.end, q.duration, a, b);
    }
  }

  /** The items read are valid exactly when every event of the calendar that makes the owner busy is. */
  lemma ItemsAreValidExactlyWhen(items: seq<Google.Item>, calendar: seq<Google.RawEvent>, school: School, start: int, end: int)
    requires Covers(items, calendar, school, start, end)
    ensures (forall e <- BusyEvents(items) :: ValidEvent(e)) <==> AllBusyValid(calendar)
  {
    BusyMembers(items);
    if AllBusyValid(calendar) {
      forall e <- BusyEvents(items) ensures ValidEvent(e) {
        var item :| item in items && Blocks(item) && EventOf(item) == e;
        if raw :| raw in calendar && Google.ParseEvent(raw) == Ok(item) {
        } else {
          var lesson :| school.Agenda? && lesson in school.lessons && ReadableLesson(lesson) && LessonItem(lesson) == item;
        }
      }
    }
    if forall e <- BusyEvents(items) :: ValidEvent(e) {
      forall raw <- calendar | Google.ParseEvent(raw).Ok? && Blocks(Google.ParseEvent(raw).value)
        ensures ValidEvent(EventOf(Google.ParseEvent(raw).value))
      {
        var item := Google.ParseEvent(raw).value;
        if Matches(raw, start, end) {
          assert EventOf(item) in BusyEvents(items);
        }
      }
    }
  }

  /** The last part: busy times, then the sweep. */
  method SlotsAmong(
    items: seq<Google.Item>, ghost calendar: seq<Google.RawEvent>, ghost school: School, ghost start: int, q: Search)
    returns (r: Result<Answer, Error>)
    requires Covers(items, calendar, school, start, q.end) && start <= q.start && ValidSearch(q)
    ensures r.Ok? ==> r.value.Completed? && Truthful(r.value.slots, q, calendar, school)
    ensures r.Ok? ==> FirstOnes(r.value.slots, q, calendar, school)
    ensures r.Err? ==> r.error == UnknownBusyTime
    ensures r.Ok? <==> AllBusyValid(calendar)
  {
    ItemsAreValidExactlyWhen(items, calendar, school, start, q.end);
    var events := BusyTimes(items);
    if events.Err? {
      return Err(events.error);
    }
    var slots := FreeSlots(events.value, q);
    if slots.Err? {
      return Err(UnknownBusyTime);
    }
    ShownSlotsAreTruthful(items, calendar, school, start, q);
    ShownSlotsAreFirst(items, calendar, school, start, q);
    r := Ok(Completed(slots.value));
  }

  /** Both agendas together. */
  method ReadAgendas(
    calendar: seq<Google.RawEvent>, turn: nat -> Google.Turn, maxPages: int, school: School, start: int, end: int)
    returns (r: Result<Reading, Error>)
    ensures r.Ok? && r.value.Everything? ==> Covers(r.value.items, calendar, school, start, end)
    ensures r.Ok? ==>
      NamesWhatIsMissing(
        if r.value.Short? then r.value.answer else Completed([]), Matching(calendar, start, end), turn, maxPages, school)
    ensures r.Ok? && r.value.Short? ==> !r.value.answer.Completed?
    ensures r.Err? ==> r.error.CalendarFailed?
    ensures Plain(calendar, turn, maxPages, school, start, end) ==> r.Ok? && r.value.Everything?
  {
    var read := ReadCalendar(calendar, turn, maxPages, start, end);
    if read.Err? || read.value.Short? {
      return read;
    }
    var all := AddSchool(read.value.items, school, start, end);
    r := Ok(all);
  }

  // ----- in terms of the request -----

  /** The day is one of the period: today, tomorrow, or the seven days from today. */
  predicate DayAsked(period: string, now: int, day: int) {
    match period
    case "today" => day == now / 86_400_000_000
    case "tomorrow" => day == now / 86_400_000_000 + 1
    case _ => now / 86_400_000_000 <= day < now / 86_400_000_000 + 7
  }

  /** The interval lies in the hours asked of one day asked, and a whole minute that is not past comes before it. */
  ghost predicate AsAsked(request: Request, now: int, a: int, b: int)
    requires request.dayStart.Some? && request.dayEnd.Some?
  {
    && (exists day :: DayAsked(request.period, now, day)
          && day * 86_400_000_000 + request.dayStart.value * 60_000_000 <= a
          && b <= day * 86_400_000_000 + request.dayEnd.value * 60_000_000)
    && exists minute :: now <= minute * 60_000_000 <= a
  }

  /**
   What is promised of the slots: each is as long as asked, as asked, and really free; they come one after the other,
   with their length in minutes; there are at most eight; and every interval that is as long as asked, as asked and
   really free lies in one of them, unless eight come before it.
  */
  ghost predicate Promised(
    slots: seq<Slot>, request: Request, now: int, calendar: seq<Google.RawEvent>, school: School)
    requires request.dayStart.Some? && request.dayEnd.Some?
  {
    var length := request.minutes * 60_000_000;
    && |slots| <= 8 && (forall i, j | 0 <= i < j < |slots| :: slots[i].end <= slots[j].start)
    && (forall slot <- slots ::
          && slot.end - slot.start >= length && slot.minutes == (slot.end - slot.start) / 60_000_000
          && AsAsked(request, now, slot.start, slot.end) && ReallyFree(calendar, school, slot.start, slot.end))
    && forall a, b | b - a >= length && AsAsked(request, now, a, b) && ReallyFree(calendar, school, a, b) ::
         Holds(slots, a, b) || (|slots| == 8 && slots[7].end <= a)
  }

  lemma MinuteBefore(now: int, a: int)
    ensures RoundedUp(now) <= a <==> exists minute :: now <= minute * 60_000_000 <= a
  {
    var rounded := RoundedUp(now);
    assert rounded == rounded / MINUTE * MINUTE;
    if minute :| now <= minute * 60_000_000 <= a {
      assert minute * MINUTE >= rounded;
    }
    if rounded <= a {
      assert now <= rounded / MINUTE * 60_000_000 <= a;
    }
  }

  /** The search made of a request looks exactly where it asks. */
  lemma SearchIsAsAsked(request: Request, now: int, a: int, b: int)
    requires ValidRequest(request) && ValidWindow(request) && a < b
    ensures (exists day :: InHours(SearchOf(request, now), day, a, b)) <==> AsAsked(request, now, a, b)
  {
    var q := SearchOf(request, now);
    MinuteBefore(now, a);
    forall day ensures InHours(q, day, a, b) <==>
      && DayAsked(request.period, now, day) && RoundedUp(now) <= a
      && day * 86_400_000_000 + request.dayStart.value * 60_000_000 <= a
      && b <= day * 86_400_000_000 + request.dayEnd.value * 60_000_000
    {
      HoursOfADay(request, now, day, a, b);
    }
  }

  lemma HoursOfADay(request: Request, now: int, day: int, a: int, b: int)
    requires ValidRequest(request) && ValidWindow(request) && a < b
    ensures InHours(SearchOf(request, now), day, a, b) <==>
      && DayAsked(request.period, now, day) && RoundedUp(now) <= a
      && day * 86_400_000_000 + request.dayStart.value * 60_000_000 <= a
      && b <= day * 86_400_000_000 + request.dayEnd.value * 60_000_000
  {
    var q := SearchOf(request, now);
    var from, to := day * DAY + q.dayStart, day * DAY + q.dayEnd;
    assert q.dayEnd < DAY && DayOf(q.start) * DAY <= q.start < DayOf(q.start) * DAY + DAY;
    assert DayOf(q.end) * DAY == q.end;
  }

  lemma TruthIsPromised(slots: seq<Slot>, request: Request, now: int, calendar: seq<Google.RawEvent>, school: School)
    requires ValidRequest(request) && ValidWindow(request)
    requires Truthful(slots, SearchOf(request, now), calendar, school)
    requires FirstOnes(slots, SearchOf(request, now), calendar, school)
    ensures Promised(slots, request, now, calendar, school)
  {
    var q := SearchOf(request, now);
    forall slot <- slots ensures AsAsked(request, now, slot.start, slot.end) {
      SearchIsAsAsked(request, now, slot.start, slot.end);
    }
    forall a, b | b - a >= request.minutes * 60_000_000 && AsAsked(request, now, a, b) && ReallyFree(calendar, school, a, b)
      ensures Holds(slots, a, b) || (|slots| == 8 && slots[7].end <= a)
    {
      SearchIsAsAsked(request, now, a, b);
    }
  }

  /** Nothing stands in the way of a complete reading. */
  ghost predicate Plain(
    calendar: seq<Google.RawEvent>, turn: nat -> Google.Turn, maxPages: int, school: School, start: int, end: int)
  {
    1 <= maxPages <= Google.MAX_PAGES && PlainCalendar(Matching(calendar, start, end), turn) && PlainSchool(school)
  }

  /**
   `find_slots`. A completed answer is truthful about the whole calendar and the whole school agenda, whatever
   the services sent; it lies in the period asked for and never starts before now. Which answer is given says
   exactly what could not be read to its end, the calendar first, and a request that is refused is malformed.
  */
  method FindSlots(
    request: Request, now: int, calendar: seq<Google.RawEvent>, turn: nat -> Google.Turn, maxPages: int, school: School)
    returns (r: Result<Answer, Error>)
    ensures r == Err(InvalidRequest) <==>
      !(request.period in {"today", "tomorrow", "week"} && 15 <= request.minutes <= 480)
    ensures r == Err(InvalidWindow) <==>
      && request.period in {"today", "tomorrow", "week"} && 15 <= request.minutes <= 480
      && !(request.dayStart.Some? && request.dayEnd.Some? && request.dayStart.value < request.dayEnd.value < 1440)
    ensures r.Ok? && r.value.Completed? ==>
      && request.dayStart.Some? && request.dayEnd.Some?
      && Promised(r.value.slots, request, now, calendar, school) && AllBusyValid(calendar)
    ensures r == Err(UnknownBusyTime) ==> !AllBusyValid(calendar)
    ensures r.Ok? ==>
      NamesWhatIsMissing(
        r.value, Matching(calendar, PeriodStart(request.period, now), PeriodEnd(request.period, now)), turn, maxPages, school)
    ensures (
      && ValidRequest(request) && ValidWindow(request) && AllBusyValid(calendar)
      && Plain(calendar, turn, maxPages, school, PeriodStart(request.period, now), PeriodEnd(request.period, now)))
      ==> r.Ok? && r.value.Completed?
  {
    if !ValidRequest(request) {
      return Err(InvalidRequest);
    }
    if !ValidWindow(request) {
      return Err(InvalidWindow);
    }
    var start, end := PeriodStart(request.period, now), PeriodEnd(request.period, now);
    var reading := ReadAgendas(calendar, turn, maxPages, school, start, end);
    if reading.Err? {
      return Err(reading.error);
    }
    if reading.value.Short? {
      return Ok(reading.value.answer);
    }
    r := SlotsAmong(reading.value.items, calendar, school, start, SearchOf(request, now));
    if r.Ok? {
      TruthIsPromised(r.value.slots, request, now, calendar, school);
    }
  }
}
