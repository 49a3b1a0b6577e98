/**
 Free time and conflicts by sweeping sorted events (planner_preview.py). Instants are microseconds of one
 wall clock, and a day is 24 hours of it.
*/
module PlannerPreview {
  import opened Wrappers
  import opened Sorting

  const MINUTE := 60_000_000
  const DAY := 86_400_000_000
  const SHOWN := 8

  datatype Event = Event(id: int, start: int, end: int)

  datatype Window = Window(start: int, end: int, event: Event)

  datatype Slot = Slot(start: int, end: int, minutes: int)

  datatype EventError = EndBeforeStart(event: Event)

  predicate Overlaps(aStart: int, aEnd: int, bStart: int, bEnd: int) {
    aStart < bEnd && bStart < aEnd
  }

  predicate ValidEvent(e: Event) {
    e.start < e.end
  }

  function Max(a: int, b: int): int {
    if b > a then b else a
  }

  function Min(a: int, b: int): int {
    if b < a then b else a
  }

  // ----- busy windows -----

  predicate WindowLeq(a: Window, b: Window) {
    || a.start < b.start
    || (a.start == b.start && (a.end < b.end || (a.end == b.end && a.event.id <= b.event.id)))
  }

  /** The events that meet [start, end), cut down to it, in the order given. */
  function Clip(events: seq<Event>, start: int, end: int): seq<Window> {
    if events == [] then []
    else
      var e := events[|events| - 1];
      Clip(events[..|events| - 1], start, end)
      + if Overlaps(start, end, e.start, e.end) then [Window(Max(start, e.start), Min(end, e.end), e)] else []
  }

  function BusyWindows(events: seq<Event>, start: int, end: int): seq<Window> {
    Sort(Clip(events, start, end), WindowLeq)
  }

  method MergeBusyWindows(events: seq<Event>, start: int, end: int) returns (r: Result<seq<Window>, EventError>)
    ensures r.Ok? <==> forall e <- events :: ValidEvent(e)
    ensures r.Ok? ==> r.value == BusyWindows(events, start, end)
    ensures r.Err? ==> r.error.event in events && !ValidEvent(r.error.event)
  {
    var windows := [];
    for k := 0 to |events|
      invariant forall j | 0 <= j < k :: ValidEvent(events[j])
      invariant windows == Clip(events[..k], start, end)
    {
      var e := events[k];
      if e.end <= e.start {
        assert e in events;
        return Err(EndBeforeStart(e));
      }
      assert events[..k + 1][..k] == events[..k];
      if Overlaps(start, end, e.start, e.end) {
        windows := windows + [Window(Max(start, e.start), Min(end, e.end), e)];
      }
    }
    assert events[..|events|] == events;
    r := Ok(Sort(windows, WindowLeq));
  }

  lemma {:induction false} ClipMembers(events: seq<Event>, start: int, end: int)
    ensures forall w <- Clip(events, start, end) ::
      && w.event in events && Overlaps(start, end, w.event.start, w.event.end)
      && w.start == Max(start, w.event.start) && w.end == Min(end, w.event.end)
    ensures forall e <- events | Overlaps(start, end, e.start, e.end) ::
      Window(Max(start, e.start), Min(end, e.end), e) in Clip(events, start, end)
  {
    if events != [] {
      ClipMembers(events[..|events| - 1], start, end);
    }
  }

  // ----- the sweep -----

  function SlotOf(start: int, end: int): Slot {
    Slot(start, end, (end - start) / MINUTE)
  }

  function Gap(start: int, end: int, duration: int): seq<Slot> {
    if end - start >= duration then [SlotOf(start, end)] else []
  }

  function Sweep(windows: seq<Window>, cursor: int, end: int, duration: int): seq<Slot> {
    if windows == [] then Gap(cursor, end, duration)
    else Gap(cursor, windows[0].start, duration) + Sweep(windows[1..], Max(cursor, windows[0].end), end, duration)
  }

  /** [start, end) meets no event. */
  ghost predicate IsFree(events: seq<Event>, start: int, end: int) {
    forall e <- events :: !Overlaps(start, end, e.start, e.end)
  }

  ghost predicate MissesAll(windows: seq<Window>, start: int, end: int) {
    forall w <- windows :: !Overlaps(start, end, w.start, w.end)
  }

  ghost predicate Holds(slots: seq<Slot>, start: int, end: int) {
    exists slot <- slots :: slot.start <= start && end <= slot.end
  }

  /** Ordered, disjoint slots inside [from, to), none shorter than asked. */
  ghost predicate WellPlaced(slots: seq<Slot>, from: int, to: int, duration: int) {
    && (forall slot <- slots ::
          from <= slot.start && slot.end <= to && slot.end - slot.start >= duration
          && slot.minutes == (slot.end - slot.start) / MINUTE)
    && forall i, j | 0 <= i < j < |slots| :: slots[i].end <= slots[j].start
  }

  lemma {:induction false} SweepIsSound(windows: seq<Window>, cursor: int, end: int, duration: int)
    requires duration > 0 && Sorted(windows, WindowLeq)
    requires forall w <- windows :: w.start < w.end <= end
    ensures WellPlaced(Sweep(windows, cursor, end, duration), cursor, end, duration)
    ensures forall slot <- Sweep(windows, cursor, end, duration) :: MissesAll(windows, slot.start, slot.end)
  {
    if windows != [] {
      var w, rest := windows[0], windows[1..];
      SweepIsSound(rest, Max(cursor, w.end), end, duration);
      forall slot <- Sweep(windows, cursor, end, duration) ensures MissesAll(windows, slot.start, slot.end) {
        forall v <- windows ensures !Overlaps(slot.start, slot.end, v.start, v.end) {
          assert v == w || v in rest;
          assert WindowLeq(w, v) || v == w;
        }
      }
    }
  }

  lemma {:induction false} SweepIsComplete(windows: seq<Window>, cursor: int, end: int, duration: int, a: int, b: int)
    requires duration > 0 && Sorted(windows, WindowLeq)
    requires cursor <= a && b <= end && b - a >= duration && MissesAll(windows, a, b)
    ensures Holds(Sweep(windows, cursor, end, duration), a, b)
  {
    if windows == [] {
      assert SlotOf(cursor, end) in Sweep(windows, cursor, end, duration);
    } else if b <= windows[0].start {
      assert SlotOf(cursor, windows[0].start) in Sweep(windows, cursor, end, duration);
    } else {
      SweepIsComplete(windows[1..], Max(cursor, windows[0].end), end, duration, a, b);
      var slot :| slot in Sweep(windows[1..], Max(cursor, windows[0].end), end, duration) && slot.start <= a && b <= slot.end;
      assert slot in Sweep(windows, cursor, end, duration);
    }
  }

  lemma WindowOrder()
    ensures TotalPreorder(WindowLeq)
  {
  }

  function DaySlots(events: seq<Event>, start: int, end: int, duration: int): seq<Slot> {
    if end - start >= duration then Sweep(BusyWindows(events, start, end), start, end, duration) else []
  }

  /** The slots of one work window are ordered and disjoint, stay inside it and are long enough. */
  lemma DaySlotsArePlaced(events: seq<Event>, start: int, end: int, duration: int)
    requires duration > 0 && forall e <- events :: ValidEvent(e)
    ensures WellPlaced(DaySlots(events, start, end, duration), start, end, duration)
    ensures forall slot <- DaySlots(events, start, end, duration) :: IsFree(events, slot.start, slot.end)
  {
    if end - start >= duration {
      var windows := BusyWindows(events, start, end);
      BusyWindowsAreClipped(events, start, end);
      SweepIsSound(windows, start, end, duration);
      forall slot <- DaySlots(events, start, end, duration) ensures IsFree(events, slot.start, slot.end) {
        assert MissesAll(windows, slot.start, slot.end);
        FreeIsMissing(events, windows, start, end, slot.start, slot.end);
      }
    }
  }

  lemma BusyWindowsAreClipped(events: seq<Event>, start: int, end: int)
    requires forall e <- events :: ValidEvent(e)
    ensures var windows := BusyWindows(events, start, end);
      && Sorted(windows, WindowLeq) && (forall w :: w in windows <==> w in Clip(events, start, end))
      && (start < end ==> forall w <- windows :: w.start < w.end <= end)
  {
    WindowOrder();
    SortSorts(Clip(events, start, end), WindowLeq);
    ClipMembers(events, start, end);
    if start < end {
      forall w <- BusyWindows(events, start, end) ensures w.start < w.end <= end {
        assert w in Clip(events, start, end);
      }
    }
  }

  /** They are exactly the window's free time: one contains an interval of the length asked iff it is free. */
  lemma DaySlotsAreExact(events: seq<Event>, start: int, end: int, duration: int, a: int, b: int)
    requires duration > 0 && b - a >= duration && forall e <- events :: ValidEvent(e)
    ensures Holds(DaySlots(events, start, end, duration), a, b) <==> start <= a && b <= end && IsFree(events, a, b)
  {
    if end - start >= duration {
      var windows := BusyWindows(events, start, end);
      BusyWindowsAreClipped(events, start, end);
      if start <= a && b <= end && IsFree(events, a, b) {
        FreeIsMissing(events, windows, start, end, a, b);
        SweepIsComplete(windows, start, end, duration, a, b);
      }
      if slot :| slot in DaySlots(events, start, end, duration) && slot.start <= a && b <= slot.end {
        DaySlotsArePlaced(events, start, end, duration);
        forall e <- events ensures !Overlaps(a, b, e.start, e.end) {
          assert !Overlaps(slot.start, slot.end, e.start, e.end);
        }
      }
    }
  }

  /** Inside a work window, meeting an event and meeting its clipped window are the same. */
  lemma FreeIsMissing(events: seq<Event>, windows: seq<Window>, start: int, end: int, a: int, b: int)
    requires start <= a < b <= end && forall e <- events :: ValidEvent(e)
    requires forall w :: w in windows <==> w in Clip(events, start, end)
    ensures IsFree(events, a, b) <==> MissesAll(windows, a, b)
  {
    ClipMembers(events, start, end);
    if e :| e in events && Overlaps(a, b, e.start, e.end) {
      var w := Window(Max(start, e.start), Min(end, e.end), e);
      assert w in windows && Overlaps(a, b, w.start, w.end);
    }
  }

  // ----- all days -----

  /** What the search ranges over: a horizon, daily opening times as offsets, and the length asked for. */
  datatype Search = Search(start: int, end: int, dayStart: nat, dayEnd: nat, duration: int)

  predicate ValidSearch(q: Search) {
    q.dayStart < DAY && q.dayEnd < DAY && q.duration > 0
  }

  function DayOf(t: int): int {
    t / DAY
  }

  function Midnight(day: int): int {
    day * DAY
  }

  function OpenFrom(q: Search, day: int): int {
    Max(q.start, Midnight(day) + q.dayStart)
  }

  function OpenTo(q: Search, day: int): int {
    Min(q.end, Midnight(day) + q.dayEnd)
  }

  /** The slots of the days before a given one, day by day. */
  function SlotsBefore(events: seq<Event>, q: Search, day: int): seq<Slot>
    decreases day - DayOf(q.start)
  {
    if day <= DayOf(q.start) then []
    else SlotsBefore(events, q, day - 1) + DaySlots(events, OpenFrom(q, day - 1), OpenTo(q, day - 1), q.duration)
  }

  /** The full list. */
  function AllSlots(events: seq<Event>, q: Search): seq<Slot> {
    SlotsBefore(events, q, DayOf(q.end) + 1)
  }

  /** [a, b) lies in the opening hours of a day of the horizon. */
  ghost predicate InHours(q: Search, day: int, a: int, b: int) {
    DayOf(q.start) <= day <= DayOf(q.end) && OpenFrom(q, day) <= a && b <= OpenTo(q, day)
  }

  lemma HoldsConcat(xs: seq<Slot>, ys: seq<Slot>, a: int, b: int)
    ensures Holds(xs + ys, a, b) <==> Holds(xs, a, b) || Holds(ys, a, b)
  {
    if slot :| slot in xs && slot.start <= a && b <= slot.end {
      assert slot in xs + ys;
    }
    if slot :| slot in ys && slot.start <= a && b <= slot.end {
      assert slot in xs + ys;
    }
  }

  lemma WellPlacedConcat(
    xs: seq<Slot>, ys: seq<Slot>, from: int, mid: int, next: int, last: int, to: int, duration: int)
    requires WellPlaced(xs, from, mid, duration) && WellPlaced(ys, next, last, duration)
    requires mid <= next && from <= next && mid <= to && last <= to
    ensures WellPlaced(xs + ys, from, to, duration)
  {
    forall i, j | 0 <= i < j < |xs + ys| ensures (xs + ys)[i].end <= (xs + ys)[j].start {
      if i < |xs| <= j {
        assert xs[i] in xs && ys[j - |xs|] in ys;
      }
    }
  }

  lemma {:induction false} SlotsBeforeArePlaced(events: seq<Event>, q: Search, day: int)
    requires ValidSearch(q) && day <= DayOf(q.end) + 1 && forall e <- events :: ValidEvent(e)
    ensures WellPlaced(SlotsBefore(events, q, day), q.start, Min(q.end, Midnight(day)), q.duration)
    ensures forall slot <- SlotsBefore(events, q, day) :: IsFree(events, slot.start, slot.end)
    decreases day - DayOf(q.start)
  {
    if day > DayOf(q.start) {
      var earlier := SlotsBefore(events, q, day - 1);
      var from, to := OpenFrom(q, day - 1), OpenTo(q, day - 1);
      SlotsBeforeArePlaced(events, q, day - 1);
      DaySlotsArePlaced(events, from, to, q.duration);
      var today := DaySlots(events, from, to, q.duration);
      assert Midnight(day - 1) <= from && to <= Min(q.end, Midnight(day)) && Midnight(day - 1) <= Midnight(day);
      WellPlacedConcat(earlier, today, q.start, Min(q.end, Midnight(day - 1)), from, to, Min(q.end, Midnight(day)), q.duration);
    }
  }

  ghost predicate InHoursBefore(q: Search, day: int, a: int, b: int) {
    exists d :: d < day && InHours(q, d, a, b)
  }

  lemma HoursOfOneMoreDay(q: Search, day: int, a: int, b: int)
    ensures InHoursBefore(q, day, a, b) <==> InHoursBefore(q, day - 1, a, b) || InHours(q, day - 1, a, b)
  {
    if d :| d < day && InHours(q, d, a, b) {
      assert d < day - 1 || d == day - 1;
    }
  }

  lemma DayHolds(events: seq<Event>, q: Search, day: int, a: int, b: int)
    requires q.duration > 0 && b - a >= q.duration && forall e <- events :: ValidEvent(e)
    requires DayOf(q.start) < day <= DayOf(q.end) + 1
    ensures Holds(SlotsBefore(events, q, day), a, b) <==>
      Holds(SlotsBefore(events, q, day - 1), a, b) || (IsFree(events, a, b) && InHours(q, day - 1, a, b))
  {
    var from, to := OpenFrom(q, day - 1), OpenTo(q, day - 1);
    DaySlotsAreExact(events, from, to, q.duration, a, b);
    HoldsConcat(SlotsBefore(events, q, day - 1), DaySlots(events, from, to, q.duration), a, b);
  }

  lemma NoDayBefore(events: seq<Event>, q: Search, day: int, a: int, b: int)
    requires day <= DayOf(q.start)
    ensures !Holds(SlotsBefore(events, q, day), a, b) && !InHoursBefore(q, day, a, b)
  {
    assert SlotsBefore(events, q, day) == [];
  }

  lemma {:induction false} SlotsBeforeAreExact(events: seq<Event>, q: Search, day: int, a: int, b: int)
    requires q.duration > 0 && day <= DayOf(q.end) + 1 && b - a >= q.duration && forall e <- events :: ValidEvent(e)
    ensures Holds(SlotsBefore(events, q, day), a, b) <==> IsFree(events, a, b) && InHoursBefore(q, day, a, b)
    decreases day - DayOf(q.start)
  {
    if day <= DayOf(q.start) {
      NoDayBefore(events, q, day, a, b);
    } else {
      SlotsBeforeAreExact(events, q, day - 1, a, b);
      DayHolds(events, q, day, a, b);
      HoursOfOneMoreDay(q, day, a, b);
    }
  }

  /**
   The full list is exact: its slots are ordered, disjoint, long enough and meet no event, and an interval of
   the length asked lies in one of them exactly when it is free and inside some day's hours.
  */
  lemma AllSlotsAreExact(events: seq<Event>, q: Search)
    requires ValidSearch(q) && forall e <- events :: ValidEvent(e)
    ensures WellPlaced(AllSlots(events, q), q.start, q.end, q.duration)
    ensures forall slot <- AllSlots(events, q) ::
      IsFree(events, slot.start, slot.end) && exists day :: InHours(q, day, slot.start, slot.end)
    ensures forall a, b | b - a >= q.duration ::
      Holds(AllSlots(events, q), a, b) <==> IsFree(events, a, b) && exists day :: InHours(q, day, a, b)
  {
    var slots, last := AllSlots(events, q), DayOf(q.end) + 1;
    SlotsBeforeArePlaced(events, q, last);
    forall a, b | b - a >= q.duration
      ensures Holds(slots, a, b) <==> IsFree(events, a, b) && exists day :: InHours(q, day, a, b)
    {
      SlotsBeforeAreExact(events, q, last, a, b);
      if day :| InHours(q, day, a, b) {
        assert day < last;
      }
    }
    forall slot <- slots ensures exists day :: InHours(q, day, slot.start, slot.end) {
      assert Holds(slots, slot.start, slot.end);
    }
  }

  /** No interval lies in two slots. */
  lemma SlotIsUnique(slots: seq<Slot>, from: int, to: int, duration: int, a: int, b: int, i: nat, j: nat)
    requires WellPlaced(slots, from, to, duration) && a < b && i < |slots| && j < |slots|
    requires slots[i].start <= a && b <= slots[i].end && slots[j].start <= a && b <= slots[j].end
    ensures i == j
  {
  }

  function FirstSlots(slots: seq<Slot>): seq<Slot> {
    if |slots| > SHOWN then slots[..SHOWN] else slots
  }

  /** A day is swept only if its window is long enough, and only then are the events looked at. */
  predicate Eligible(q: Search, day: int) {
    OpenTo(q, day) - OpenFrom(q, day) >= q.duration
  }

  method SlotsOfDay(events: seq<Event>, start: int, end: int, duration: int) returns (r: Result<seq<Slot>, EventError>)
    ensures r.Ok? <==> (forall e <- events :: ValidEvent(e)) || end - start < duration
    ensures r.Ok? ==> r.value == DaySlots(events, start, end, duration)
    ensures r.Err? ==> r.error.event in events && !ValidEvent(r.error.event)
  {
    if end - start < duration {
      return Ok([]);
    }
    var busy := MergeBusyWindows(events, start, end);
    if busy.Err? {
      return Err(busy.error);
    }
    var slots := SweepWindows(busy.value, start, end, duration);
    r := Ok(slots);
  }

  /** `_free_slots`: the first eight of the full list, or the first malformed event once any day is swept. */
  method FreeSlots(events: seq<Event>, q: Search) returns (r: Result<seq<Slot>, EventError>)
    requires ValidSearch(q)
    ensures r.Ok? ==> r.value == FirstSlots(AllSlots(events, q))
    ensures r.Ok? <==> (forall e <- events :: ValidEvent(e))
                       || forall day | DayOf(q.start) <= day <= DayOf(q.end) :: !Eligible(q, day)
    ensures r.Err? ==> r.error.event in events && !ValidEvent(r.error.event)
  {
    var slots := [];
    var day := DayOf(q.start);
    while day <= DayOf(q.end)
      invariant day >= DayOf(q.start) && (day == DayOf(q.start) || day <= DayOf(q.end) + 1)
      invariant slots == SlotsBefore(events, q, day)
      invariant (forall e <- events :: ValidEvent(e)) || forall d | DayOf(q.start) <= d < day :: !Eligible(q, d)
      decreases DayOf(q.end) + 1 - day
    {
      var today := SlotsOfDay(events, OpenFrom(q, day), OpenTo(q, day), q.duration);
      if today.Err? {
        assert Eligible(q, day);
        return Err(today.error);
      }
      slots := slots + today.value;
      day := day + 1;
    }
    r := Ok(FirstSlots(slots));
  }

  /** The inner loop: a cursor over one day's busy windows. */
  method SweepWindows(windows: seq<Window>, start: int, end: int, duration: int) returns (slots: seq<Slot>)
    ensures slots == Sweep(windows, start, end, duration)
  {
    slots := [];
    var cursor := start;
    for k := 0 to |windows|
      invariant Sweep(windows, start, end, duration) == slots + Sweep(windows[k..], cursor, end, duration)
    {
      var w := windows[k];
      assert windows[k..][1..] == windows[k + 1..];
      if w.start - cursor >= duration {
        slots := slots + [SlotOf(cursor, w.start)];
      }
      cursor := Max(cursor, w.end);
    }
    if end - cursor >= duration {
      slots := slots + [SlotOf(cursor, end)];
    }
  }

  // ----- conflicts -----

  predicate StartLeq(a: Event, b: Event) {
    a.start < b.start || (a.start == b.start && a.end <= b.end)
  }

  lemma StartOrder()
    ensures TotalPreorder(StartLeq)
  {
  }

  datatype Conflict = Conflict(first: Event, second: Event, start: int, end: int)

  /** Positions of two events in the sorted list. */
  datatype Pair = Pair(i: nat, j: nat)

  function Intersection(a: Event, b: Event): Conflict {
    Conflict(a, b, Max(a.start, b.start), Min(a.end, b.end))
  }

  predicate Meet(a: Event, b: Event) {
    Overlaps(a.start, a.end, b.start, b.end)
  }

  /** The overlapping pairs (i, k) with i < k < j: every later event is looked at. */
  function RowPairs(events: seq<Event>, i: nat, j: nat): (pairs: seq<Pair>)
    requires i < j <= |events|
    ensures forall p <- pairs :: p.i == i < p.j < j
  {
    if j == i + 1 then []
    else RowPairs(events, i, j - 1) + if Meet(events[i], events[j - 1]) then [Pair(i, j - 1)] else []
  }

  /** All overlapping pairs whose first event is before position i. */
  function PairsBefore(events: seq<Event>, i: nat): (pairs: seq<Pair>)
    requires i <= |events|
    ensures forall p <- pairs :: p.i < p.j < |events| && p.i < i
  {
    if i == 0 then [] else PairsBefore(events, i - 1) + RowPairs(events, i - 1, |events|)
  }

  function AllPairs(events: seq<Event>): seq<Pair> {
    PairsBefore(events, |events|)
  }

  function ConflictsOf(events: seq<Event>, pairs: seq<Pair>): seq<Conflict>
    requires forall p <- pairs :: p.i < p.j < |events|
  {
    if pairs == [] then []
    else
      var last := pairs[|pairs| - 1];
      ConflictsOf(events, pairs[..|pairs| - 1]) + [Intersection(events[last.i], events[last.j])]
  }

  lemma {:induction false} ConflictsConcat(events: seq<Event>, a: seq<Pair>, b: seq<Pair>)
    requires (forall p <- a :: p.i < p.j < |events|) && forall p <- b :: p.i < p.j < |events|
    ensures forall p <- a + b :: p.i < p.j < |events|
    ensures ConflictsOf(events, a + b) == ConflictsOf(events, a) + ConflictsOf(events, b)
    decreases |b|
  {
    if b == [] {
      assert a + b == a;
    } else {
      assert (a + b)[..|a + b| - 1] == a + b[..|b| - 1];
      ConflictsConcat(events, a, b[..|b| - 1]);
    }
  }

  /** In lexicographic order, so no pair twice. */
  ghost predicate Increasing(pairs: seq<Pair>) {
    forall k, m | 0 <= k < m < |pairs| :: pairs[k].i < pairs[m].i || (pairs[k].i == pairs[m].i && pairs[k].j < pairs[m].j)
  }

  lemma {:induction false} RowIncreases(events: seq<Event>, i: nat, j: nat)
    requires i < j <= |events|
    ensures Increasing(RowPairs(events, i, j))
  {
    if j > i + 1 {
      var row := RowPairs(events, i, j - 1);
      RowIncreases(events, i, j - 1);
      forall k | 0 <= k < |row| ensures row[k].i == i && row[k].j < j - 1 {
        assert row[k] in row;
      }
    }
  }

  lemma {:induction false} RowIsExact(events: seq<Event>, i: nat, j: nat, k: nat)
    requires i < k < j <= |events|
    ensures Meet(events[i], events[k]) <==> Pair(i, k) in RowPairs(events, i, j)
  {
    if k < j - 1 {
      RowIsExact(events, i, j - 1, k);
    } else {
      assert Pair(i, k) !in RowPairs(events, i, j - 1);
    }
  }

  lemma IncreasingConcat(a: seq<Pair>, b: seq<Pair>)
    requires Increasing(a) && Increasing(b) && forall p <- a, r <- b :: p.i < r.i
    ensures Increasing(a + b)
  {
    forall k, m | 0 <= k < m < |a + b|
      ensures (a + b)[k].i < (a + b)[m].i || ((a + b)[k].i == (a + b)[m].i && (a + b)[k].j < (a + b)[m].j)
    {
      if k < |a| <= m {
        assert a[k] in a && b[m - |a|] in b;
      }
    }
  }

  lemma {:induction false} PairsIncrease(events: seq<Event>, i: nat)
    requires i <= |events|
    ensures Increasing(PairsBefore(events, i))
  {
    if i > 0 {
      var earlier, row := PairsBefore(events, i - 1), RowPairs(events, i - 1, |events|);
      PairsIncrease(events, i - 1);
      RowIncreases(events, i - 1, |events|);
      IncreasingConcat(earlier, row);
      assert PairsBefore(events, i) == earlier + row;
    }
  }

  lemma InConcat(p: Pair, a: seq<Pair>, b: seq<Pair>)
    ensures p in a + b <==> p in a || p in b
  {
  }

  lemma {:induction false} PairsBeforeAreExact(events: seq<Event>, i: nat, a: nat, b: nat)
    requires a < i <= |events| && a < b < |events|
    ensures Meet(events[a], events[b]) <==> Pair(a, b) in PairsBefore(events, i)
  {
    var earlier, row := PairsBefore(events, i - 1), RowPairs(events, i - 1, |events|);
    assert PairsBefore(events, i) == earlier + row;
    InConcat(Pair(a, b), earlier, row);
    if a < i - 1 {
      PairsBeforeAreExact(events, i - 1, a, b);
      assert Pair(a, b) !in row;
    } else {
      RowIsExact(events, a, |events|, b);
      assert Pair(a, b) !in earlier;
    }
  }

  /** Comparing everything with everything lists each overlapping pair once, in order, and nothing else. */
  lemma AllPairsAreExact(events: seq<Event>)
    ensures Increasing(AllPairs(events))
    ensures forall a, b | 0 <= a < b < |events| :: Meet(events[a], events[b]) <==> Pair(a, b) in AllPairs(events)
    ensures forall p <- AllPairs(events) :: p.i < p.j < |events|
  {
    PairsIncrease(events, |events|);
    forall a, b | 0 <= a < b < |events| ensures Meet(events[a], events[b]) <==> Pair(a, b) in AllPairs(events) {
      PairsBeforeAreExact(events, |events|, a, b);
    }
  }

  predicate Contains(start: int, end: int, t: int) {
    start <= t < end
  }

  /** The reported span is exactly the set of instants that both events occupy, and it is never empty. */
  lemma IntersectionIsExact(a: Event, b: Event)
    requires ValidEvent(a) && ValidEvent(b) && Meet(a, b)
    ensures var c := Intersection(a, b);
      && c.start < c.end
      && forall t :: Contains(c.start, c.end, t) <==> Contains(a.start, a.end, t) && Contains(b.start, b.end, t)
  {
  }

  /** In a sorted list nothing after the first event that starts too late can overlap: the early break is safe. */
  lemma {:induction false} BreakIsSafe(events: seq<Event>, i: nat, j: nat, n: nat)
    requires i < j <= n <= |events| && Sorted(events, StartLeq) && (j < |events| ==> events[j].start >= events[i].end)
    ensures RowPairs(events, i, n) == RowPairs(events, i, j)
  {
    if n > j {
      BreakIsSafe(events, i, j, n - 1);
      assert j < n - 1 ==> StartLeq(events[j], events[n - 1]);
    }
  }

  /** Before the break, the overlap test can only succeed. */
  lemma ReachedMeansMeet(events: seq<Event>, i: nat, j: nat)
    requires i < j < |events| && Sorted(events, StartLeq) && forall e <- events :: ValidEvent(e)
    requires events[j].start < events[i].end
    ensures Meet(events[i], events[j])
  {
    assert StartLeq(events[i], events[j]);
    assert events[j] in events;
  }

  lemma RowGrows(events: seq<Event>, i: nat, j: nat)
    requires i < j < |events|
    ensures ConflictsOf(events, RowPairs(events, i, j + 1)) ==
      ConflictsOf(events, RowPairs(events, i, j))
      + if Meet(events[i], events[j]) then [Intersection(events[i], events[j])] else []
  {
    var row := RowPairs(events, i, j);
    if Meet(events[i], events[j]) {
      assert RowPairs(events, i, j + 1) == row + [Pair(i, j)];
      assert (row + [Pair(i, j)])[..|row|] == row;
    } else {
      assert RowPairs(events, i, j + 1) == row + [] == row;
    }
  }

  /** The inner loop, with its break; the overlap test holds whenever it is reached. */
  method ConflictsWith(events: seq<Event>, i: nat) returns (conflicts: seq<Conflict>)
    requires i < |events| && Sorted(events, StartLeq) && forall e <- events :: ValidEvent(e)
    ensures conflicts == ConflictsOf(events, RowPairs(events, i, |events|))
  {
    conflicts := [];
    var j := i + 1;
    while j < |events|
      invariant i < j <= |events|
      invariant conflicts == ConflictsOf(events, RowPairs(events, i, j))
    {
      if events[j].start >= events[i].end {
        break;
      }
      ReachedMeansMeet(events, i, j);
      RowGrows(events, i, j);
      if Meet(events[i], events[j]) {
        conflicts := conflicts + [Intersection(events[i], events[j])];
      }
      j := j + 1;
    }
    BreakIsSafe(events, i, j, |events|);
  }

  method ConflictsIn(events: seq<Event>) returns (conflicts: seq<Conflict>)
    requires Sorted(events, StartLeq) && forall e <- events :: ValidEvent(e)
    ensures conflicts == ConflictsOf(events, AllPairs(events))
  {
    conflicts := [];
    for i := 0 to |events|
      invariant conflicts == ConflictsOf(events, PairsBefore(events, i))
    {
      var row := ConflictsWith(events, i);
      ConflictsConcat(events, PairsBefore(events, i), RowPairs(events, i, |events|));
      conflicts := conflicts + row;
    }
  }

  /**
   `_conflicts`: the sweep with its early break reports exactly what comparing all pairs would, over the
   events in time order.
  */
  method Conflicts(input: seq<Event>) returns (r: Result<seq<Conflict>, EventError>)
    ensures r.Ok? <==> forall e <- input :: ValidEvent(e)
    ensures r.Ok? ==>
      var events := Sort(input, StartLeq);
      && Sorted(events, StartLeq) && multiset(events) == multiset(input)
      && r.value == ConflictsOf(events, AllPairs(events))
    ensures r.Err? ==> r.error.event in input && !ValidEvent(r.error.event)
  {
    for k := 0 to |input|
      invariant forall j | 0 <= j < k :: ValidEvent(input[j])
    {
      if input[k].end <= input[k].start {
        assert input[k] in input;
        return Err(EndBeforeStart(input[k]));
      }
    }
    var events := Sort(input, StartLeq);
    StartOrder();
    SortSorts(input, StartLeq);
    var conflicts := ConflictsIn(events);
    r := Ok(conflicts);
  }
}
