/**
 The thermal cutoff of the local GPU service (thermal_guard.py): trip on a hot or unreadable sample,
 recover only after a sustained cool run, and restart only what was stopped. One call of `Step` is atomic
 and the state file survives it; times are milliseconds.
*/
module ThermalGuard {
  import opened Wrappers

  const HYSTERESIS := 9
  const DWELL := 30_000
  const FRESH := 3_000
  const MAX_READING := 120

  datatype Transition = Trip | Recovery
  datatype Command = Ask | Stop | Start

  /** A message the guard still has to hand over. */
  datatype Pending = Pending(phase: Transition, incident: Option<nat>, temperature: Option<int>, stopConfirmed: Option<bool>)

  /** The state file. */
  datatype File = File(
    cooling: bool, sampledAt: int, temperature: Option<int>, limit: int, owed: bool, incident: Option<nat>,
    stopConfirmed: Option<bool>, pending: Option<Pending>)

  /** A guard process. */
  datatype Guard = Guard(cooling: bool, owed: bool, incident: Option<nat>, pending: Option<Pending>, coolSince: Option<int>)

  /** What the service manager would answer, in the order it can be asked. */
  datatype Service = Service(active: bool, stops: bool, activeAfterStop: bool, starts: bool, activeAfterStart: bool)

  /** One reading with the clocks and the service as they are then; `newIncident` is a fresh id. */
  datatype Sample = Sample(reading: Option<int>, now: int, coolNow: int, service: Service, newIncident: nat)

  datatype Output = Output(file: File, transition: Option<Transition>, commands: seq<Command>)

  predicate ValidLimit(limit: int) {
    65 <= limit <= 89
  }

  /** Readings outside 0..120 count as unreadable. */
  function Temperature(sample: Sample): Option<int> {
    if sample.reading.Some? && 0 <= sample.reading.value <= MAX_READING then sample.reading else None
  }

  predicate Bad(limit: int, sample: Sample) {
    Temperature(sample).None? || Temperature(sample).value >= limit
  }

  predicate Cool(limit: int, sample: Sample) {
    Temperature(sample).Some? && Temperature(sample).value <= limit - HYSTERESIS
  }

  /** A restarted guard process. */
  function Load(file: Option<File>): Guard {
    if file.None? then Guard(false, false, None, None, None)
    else
      var saved := file.value;
      Guard(saved.cooling, saved.cooling && saved.owed, if saved.cooling then saved.incident else None, saved.pending, None)
  }

  function AfterBad(g: Guard, s: Sample): (Guard, Option<Transition>, Option<bool>, seq<Command>) {
    var incident := if g.cooling then g.incident else Some(s.newIncident);
    var transition := if g.cooling then None else Some(Trip);
    if !s.service.active then (g.(cooling := true, coolSince := None, incident := incident), transition, None, [Ask])
    else
      var confirmed := s.service.stops && !s.service.activeAfterStop;
      (g.(cooling := true, coolSince := None, incident := incident, owed := g.owed || confirmed),
       transition, Some(confirmed), if s.service.stops then [Ask, Stop, Ask] else [Ask, Stop])
  }

  function AfterGood(limit: int, g: Guard, s: Sample): (Guard, Option<Transition>, Option<bool>, seq<Command>) {
    if !g.cooling then (g, None, None, [])
    else if !Cool(limit, s) then (g.(coolSince := None), None, None, [])
    else
      var since := if g.coolSince.Some? then g.coolSince.value else s.coolNow;
      var held := g.(coolSince := Some(since));
      if s.coolNow - since < DWELL then (held, None, None, [])
      else if !g.owed then (held.(cooling := false, owed := false), Some(Recovery), None, [])
      else if s.service.starts && s.service.activeAfterStart then
        (held.(cooling := false, owed := false), Some(Recovery), None, [Start, Ask])
      else (held, None, None, if s.service.starts then [Start, Ask] else [Start])
  }

  function StepOf(limit: int, g: Guard, s: Sample): (Guard, Output) {
    var (g', transition, confirmed, commands) := if Bad(limit, s) then AfterBad(g, s) else AfterGood(limit, g, s);
    var pending :=
      if transition.None? then g.pending else Some(Pending(transition.value, g'.incident, Temperature(s), confirmed));
    (g'.(pending := pending),
     Output(File(g'.cooling, s.now, Temperature(s), limit, g'.owed, g'.incident, confirmed, pending), transition, commands))
  }

  // ----- traces -----

  /** A sample taken and what is pending handed over, if that worked; or the guard process replaced by a new one. */
  datatype Event = Take(sample: Sample, delivered: bool) | Reload

  datatype Trace = Trace(guard: Guard, file: Option<File>, outputs: seq<Option<Output>>)

  /** Once handed over a message is forgotten, but only in memory. */
  function HandOver(g: Guard, delivered: bool): Guard {
    if delivered then g.(pending := None) else g
  }

  function Exec(limit: int, t: Trace, e: Event): Trace {
    match e
    case Reload => Trace(Load(t.file), t.file, t.outputs + [None])
    case Take(sample, delivered) =>
      var (g, output) := StepOf(limit, t.guard, sample);
      Trace(HandOver(g, delivered), Some(output.file), t.outputs + [Some(output)])
  }

  /** The guard after a history, started on whatever file an earlier life left. */
  function Run(limit: int, file: Option<File>, events: seq<Event>): Trace {
    if events == [] then Trace(Load(file), file, [])
    else Exec(limit, Run(limit, file, events[..|events| - 1]), events[|events| - 1])
  }

  predicate BadAt(limit: int, events: seq<Event>, k: nat)
    requires k < |events|
  {
    events[k].Take? && Bad(limit, events[k].sample)
  }

  predicate CoolAt(limit: int, events: seq<Event>, k: nat)
    requires k < |events|
  {
    events[k].Take? && Cool(limit, events[k].sample)
  }

  /** An uninterrupted run of cool samples within one guard process, long enough to recover. */
  ghost predicate CoolRun(limit: int, events: seq<Event>, from: nat, to: nat)
    requires from <= to < |events|
  {
    && CoolAt(limit, events, from) && CoolAt(limit, events, to)
    && (forall k | from <= k <= to :: CoolAt(limit, events, k))
    && events[to].sample.coolNow - events[from].sample.coolNow >= DWELL
  }

  ghost predicate NoBadAfter(limit: int, events: seq<Event>, to: nat) {
    forall k | to <= k < |events| :: !BadAt(limit, events, k)
  }

  /** Why the guard may be ready: it never tripped, or it has cooled down since. */
  ghost predicate MayBeReady(limit: int, file: Option<File>, events: seq<Event>) {
    || (!Load(file).cooling && NoBadAfter(limit, events, 0))
    || exists from, to | 0 <= from <= to < |events| ::
         CoolRun(limit, events, from, to) && NoBadAfter(limit, events, to)
  }

  /** A remembered start of cooling belongs to a sample from which on every event was cool. */
  ghost predicate DwellOk(limit: int, events: seq<Event>, g: Guard) {
    g.cooling && g.coolSince.Some? ==>
      exists from | 0 <= from < |events| ::
        && CoolAt(limit, events, from) && events[from].sample.coolNow == g.coolSince.value
        && forall k | from <= k < |events| :: CoolAt(limit, events, k)
  }

  ghost predicate Inv(limit: int, file: Option<File>, events: seq<Event>) {
    var t := Run(limit, file, events);
    && |t.outputs| == |events|
    && Load(t.file).cooling == t.guard.cooling && Load(t.file).owed == t.guard.owed
    && (t.guard.cooling ==> Load(t.file).incident == t.guard.incident)
    && (t.guard.owed ==> t.guard.cooling)
    && DwellOk(limit, events, t.guard)
    && (!t.guard.cooling ==> MayBeReady(limit, file, events))
  }

  /** Extending a history keeps its cool runs and what came after them. */
  lemma HistoryGrows(limit: int, events: seq<Event>, e: Event, from: nat, to: nat)
    requires from <= to < |events|
    ensures CoolRun(limit, events, from, to) <==> CoolRun(limit, events + [e], from, to)
  {
    forall k | from <= k <= to ensures CoolAt(limit, events, k) <==> CoolAt(limit, events + [e], k) {}
  }

  lemma ReadyStays(limit: int, file: Option<File>, events: seq<Event>, e: Event)
    requires MayBeReady(limit, file, events) && !(e.Take? && Bad(limit, e.sample))
    ensures MayBeReady(limit, file, events + [e])
  {
    var longer := events + [e];
    forall k | 0 <= k < |longer| ensures BadAt(limit, longer, k) <==> k < |events| && BadAt(limit, events, k) {}
    if !(!Load(file).cooling && NoBadAfter(limit, events, 0)) {
      var from, to :| 0 <= from <= to < |events| && CoolRun(limit, events, from, to) && NoBadAfter(limit, events, to);
      HistoryGrows(limit, events, e, from, to);
      assert CoolRun(limit, longer, from, to) && NoBadAfter(limit, longer, to);
    }
  }

  lemma InvSample(limit: int, file: Option<File>, events: seq<Event>, sample: Sample, delivered: bool)
    requires Inv(limit, file, events)
    ensures Inv(limit, file, events + [Take(sample, delivered)])
  {
    var longer := events + [Take(sample, delivered)];
    assert longer[..|events|] == events;
    var g, g' := Run(limit, file, events).guard, Run(limit, file, longer).guard;
    forall k | 0 <= k < |events| ensures CoolAt(limit, longer, k) <==> CoolAt(limit, events, k) {}
    if !g.cooling && !Bad(limit, sample) {
      ReadyStays(limit, file, events, Take(sample, delivered));
    } else if g.cooling && Cool(limit, sample) && !Bad(limit, sample) {
      var from := |events|;
      if g.coolSince.Some? {
        from :| 0 <= from < |events| && CoolAt(limit, events, from)
                && events[from].sample.coolNow == g.coolSince.value
                && forall k | from <= k < |events| :: CoolAt(limit, events, k);
      }
      assert CoolAt(limit, longer, from);
      assert forall k | from <= k < |longer| :: CoolAt(limit, longer, k);
      if !g'.cooling {
        assert CoolRun(limit, longer, from, |events|) && NoBadAfter(limit, longer, |events|);
      }
    }
  }

  lemma {:induction false} InvHolds(limit: int, file: Option<File>, events: seq<Event>)
    ensures Inv(limit, file, events)
  {
    if events != [] {
      var init, last := events[..|events| - 1], events[|events| - 1];
      InvHolds(limit, file, init);
      assert events == init + [last];
      match last
      case Take(sample, delivered) => InvSample(limit, file, init, sample, delivered);
      case Reload =>
        if MayBeReady(limit, file, init) {
          ReadyStays(limit, file, init, last);
        }
    }
  }

  // ----- readiness -----

  /** After a bad sample the guard is ready only if a full cool run came later and nothing bad since. */
  lemma ReadyNeedsACoolRun(limit: int, file: Option<File>, events: seq<Event>, bad: nat)
    requires !Run(limit, file, events).guard.cooling && bad < |events| && BadAt(limit, events, bad)
    ensures exists from, to | bad < from <= to < |events| ::
      CoolRun(limit, events, from, to) && NoBadAfter(limit, events, to)
  {
    InvHolds(limit, file, events);
    var from, to :| 0 <= from <= to < |events| && CoolRun(limit, events, from, to) && NoBadAfter(limit, events, to);
    assert from <= bad <= to ==> CoolAt(limit, events, bad);
  }

  /** A guard that starts out cooling needs such a run as well, whatever restarts happen in between. */
  lemma CoolingOutlivesReloads(limit: int, file: Option<File>, events: seq<Event>)
    requires Load(file).cooling && !Run(limit, file, events).guard.cooling
    ensures exists from, to | 0 <= from <= to < |events| ::
      CoolRun(limit, events, from, to) && NoBadAfter(limit, events, to)
  {
    InvHolds(limit, file, events);
  }

  ghost predicate ClockForward(events: seq<Event>) {
    forall j, k | 0 <= j < k < |events| && events[j].Take? && events[k].Take? ::
      events[j].sample.coolNow <= events[k].sample.coolNow
  }

  /** While it is still cooling, the remembered start is no later than the run of cool samples it is in. */
  lemma {:induction false} CoolSinceIsEarly(limit: int, file: Option<File>, events: seq<Event>, from: nat)
    requires from < |events| && ClockForward(events)
    requires forall k | from <= k < |events| :: CoolAt(limit, events, k)
    requires CoolAt(limit, events, from) && Run(limit, file, events).guard.cooling
    ensures var g := Run(limit, file, events).guard;
      g.coolSince.Some? && g.coolSince.value <= events[from].sample.coolNow
  {
    var init, last := events[..|events| - 1], events[|events| - 1];
    assert CoolAt(limit, events, |events| - 1);
    if from < |init| {
      forall k | from <= k < |init| ensures CoolAt(limit, init, k) {
        assert CoolAt(limit, events, k);
      }
      CoolSinceIsEarly(limit, file, init, from);
    } else {
      InvHolds(limit, file, init);
    }
  }

  /**
   The other direction: a cool run that spans the dwell time ends the cooling, provided the service owed a
   restart, if any, comes back.
  */
  lemma CoolRunRecovers(limit: int, file: Option<File>, events: seq<Event>, from: nat)
    requires from < |events| && ClockForward(events) && CoolRun(limit, events, from, |events| - 1)
    requires var g, service := Run(limit, file, events[..|events| - 1]).guard, events[|events| - 1].sample.service;
      g.owed ==> service.starts && service.activeAfterStart
    ensures !Run(limit, file, events).guard.cooling
  {
    var init := events[..|events| - 1];
    assert CoolAt(limit, events, |events| - 1);
    if Run(limit, file, init).guard.cooling && from < |init| {
      forall k | from <= k < |init| ensures CoolAt(limit, init, k) {
        assert CoolAt(limit, events, k);
      }
      CoolSinceIsEarly(limit, file, init, from);
    }
  }

  // ----- one event -----

  /** What one event appends, and how it moves the cooling flag and the debt. */
  lemma ExecShape(limit: int, t: Trace, e: Event)
    requires Load(t.file).cooling == t.guard.cooling && Load(t.file).owed == t.guard.owed
    ensures var t' := Exec(limit, t, e);
      && |t'.outputs| == |t.outputs| + 1 && t'.outputs[..|t.outputs|] == t.outputs
      && Moves(t.guard, t'.guard, t'.outputs[|t.outputs|])
  {
  }

  ghost predicate Moves(g: Guard, g': Guard, output: Option<Output>) {
    var transition := if output.Some? then output.value.transition else None;
    var confirmed := output.Some? && output.value.file.stopConfirmed == Some(true);
    && (transition == Some(Trip) <==> !g.cooling && g'.cooling)
    && (transition == Some(Recovery) <==> g.cooling && !g'.cooling)
    && (transition == Some(Recovery) ==> !g'.owed && !confirmed)
    && (transition != Some(Recovery) ==> (g'.owed <==> g.owed || confirmed))
  }

  // ----- restart debt -----

  predicate StopConfirmedAt(outputs: seq<Option<Output>>, k: nat)
    requires k < |outputs|
  {
    outputs[k].Some? && outputs[k].value.file.stopConfirmed == Some(true)
  }

  predicate TransitionAt(outputs: seq<Option<Output>>, k: nat, transition: Transition)
    requires k < |outputs|
  {
    outputs[k].Some? && outputs[k].value.transition == Some(transition)
  }

  ghost predicate NoRecoverySince(outputs: seq<Option<Output>>, from: nat) {
    forall k | from <= k < |outputs| :: !TransitionAt(outputs, k, Recovery)
  }

  /** A confirmed stop, of this life or an earlier one, that no recovery has followed. */
  ghost predicate RestartOwed(file: Option<File>, outputs: seq<Option<Output>>) {
    || (Load(file).owed && NoRecoverySince(outputs, 0))
    || exists k | 0 <= k < |outputs| :: StopConfirmedAt(outputs, k) && NoRecoverySince(outputs, k)
  }

  lemma OwedStep(file: Option<File>, outputs: seq<Option<Output>>, output: Option<Output>)
    requires output.Some? ==> !(output.value.transition == Some(Recovery) && output.value.file.stopConfirmed == Some(true))
    ensures RestartOwed(file, outputs + [output]) <==>
      if output.Some? && output.value.transition == Some(Recovery) then false
      else RestartOwed(file, outputs) || (output.Some? && output.value.file.stopConfirmed == Some(true))
  {
    var longer := outputs + [output];
    forall k, transition | 0 <= k < |outputs|
      ensures TransitionAt(longer, k, transition) <==> TransitionAt(outputs, k, transition)
      ensures StopConfirmedAt(longer, k) <==> StopConfirmedAt(outputs, k)
    {}
    assert TransitionAt(longer, |outputs|, Recovery) <==> output.Some? && output.value.transition == Some(Recovery);
    if output.Some? && output.value.file.stopConfirmed == Some(true) {
      assert StopConfirmedAt(longer, |outputs|) && NoRecoverySince(longer, |outputs|);
    }
    forall k | 0 <= k <= |outputs|
      ensures NoRecoverySince(longer, k) <==> NoRecoverySince(outputs, k) && !TransitionAt(longer, |outputs|, Recovery)
    {
      if NoRecoverySince(longer, k) {
        forall j | k <= j < |outputs| ensures !TransitionAt(outputs, j, Recovery) {
          assert !TransitionAt(longer, j, Recovery);
        }
      }
    }
  }

  /** The debt in the guard, across restarts, is exactly a confirmed stop without a later recovery. */
  lemma {:induction false} OwedExactly(limit: int, file: Option<File>, events: seq<Event>)
    ensures var t := Run(limit, file, events); t.guard.owed <==> RestartOwed(file, t.outputs)
  {
    if events != [] {
      var init := events[..|events| - 1];
      OwedExactly(limit, file, init);
      InvHolds(limit, file, init);
      var before, after := Run(limit, file, init), Run(limit, file, events);
      ExecShape(limit, before, events[|events| - 1]);
      assert after.outputs == before.outputs + [after.outputs[|before.outputs|]];
      OwedStep(file, before.outputs, after.outputs[|before.outputs|]);
    }
  }

  /** A start is issued only for a stop that was confirmed and not yet made good; readiness owes nothing. */
  lemma StartOnlyWhileOwed(limit: int, file: Option<File>, events: seq<Event>, sample: Sample, delivered: bool)
    ensures var before, after := Run(limit, file, events), Exec(limit, Run(limit, file, events), Take(sample, delivered));
      && (Start in after.outputs[|before.outputs|].value.commands ==> RestartOwed(file, before.outputs))
      && (!after.guard.cooling ==> !RestartOwed(file, after.outputs))
      && (after.outputs[|before.outputs|].value.transition == Some(Recovery) ==>
            RestartOwed(file, before.outputs) ==> sample.service.starts && sample.service.activeAfterStart)
  {
    OwedExactly(limit, file, events);
    OwedExactly(limit, file, events + [Take(sample, delivered)]);
    InvHolds(limit, file, events + [Take(sample, delivered)]);
    assert (events + [Take(sample, delivered)])[..|events|] == events;
  }

  // ----- every sample, exactly -----

  /** Where the run of cool samples that a history ends with began, within one guard process. */
  function CoolStart(limit: int, events: seq<Event>): (start: Option<nat>)
    ensures start.Some? ==> start.value < |events| && events[start.value].Take?
  {
    if events == [] || !CoolAt(limit, events, |events| - 1) then None
    else
      var earlier := CoolStart(limit, events[..|events| - 1]);
      if earlier.Some? then earlier else Some(|events| - 1)
  }

  /** A reading of at least nine degrees below the limit. */
  predicate NineBelow(limit: int, events: seq<Event>, k: nat)
    requires k < |events|
  {
    && events[k].Take? && events[k].sample.reading.Some?
    && 0 <= events[k].sample.reading.value <= 120 && events[k].sample.reading.value <= limit - 9
  }

  lemma CoolIsNineBelow(limit: int, events: seq<Event>, k: nat)
    requires k < |events|
    ensures CoolAt(limit, events, k) <==> NineBelow(limit, events, k)
  {
  }

  lemma {:induction false} CoolStartIsFirst(limit: int, events: seq<Event>, from: nat)
    ensures CoolStart(limit, events) == Some(from) <==>
      && from < |events| && (forall k | from <= k < |events| :: NineBelow(limit, events, k))
      && (from > 0 ==> !NineBelow(limit, events, from - 1))
  {
    forall k | 0 <= k < |events| ensures CoolAt(limit, events, k) <==> NineBelow(limit, events, k) {
      CoolIsNineBelow(limit, events, k);
    }
    if events != [] {
      var init := events[..|events| - 1];
      CoolStartIsFirst(limit, init, from);
      forall k | 0 <= k < |init| ensures NineBelow(limit, init, k) <==> NineBelow(limit, events, k) {
      }
      CoolStartEnds(limit, init);
    }
  }

  /** There is such a run exactly if the last event is cool. */
  lemma CoolStartEnds(limit: int, events: seq<Event>)
    ensures CoolStart(limit, events).Some? <==> events != [] && CoolAt(limit, events, |events| - 1)
    ensures events != [] ==> (CoolAt(limit, events, |events| - 1) <==> NineBelow(limit, events, |events| - 1))
  {
  }

  /** While cooling, what the guard remembers is exactly when that run began. */
  lemma {:induction false} CoolSinceExactly(limit: int, file: Option<File>, events: seq<Event>)
    requires Run(limit, file, events).guard.cooling
    ensures var start := CoolStart(limit, events);
      Run(limit, file, events).guard.coolSince == if start.Some? then Some(events[start.value].sample.coolNow) else None
  {
    if events != [] {
      var init, e := events[..|events| - 1], events[|events| - 1];
      if Run(limit, file, init).guard.cooling {
        CoolSinceExactly(limit, file, init);
      }
      CoolSinceStep(limit, Run(limit, file, init), e);
      assert CoolAt(limit, events, |events| - 1) <==> e.Take? && Cool(limit, e.sample);
    }
  }

  /** What one event makes of the remembered start of cooling. */
  lemma CoolSinceStep(limit: int, t: Trace, e: Event)
    requires Exec(limit, t, e).guard.cooling
    ensures var since := Exec(limit, t, e).guard.coolSince;
      if e.Take? && Cool(limit, e.sample) then
        t.guard.cooling && since == (if t.guard.coolSince.Some? then t.guard.coolSince else Some(e.sample.coolNow))
      else since.None?
  {
  }

  /** Unreadable, or at the limit. */
  predicate Hot(limit: int, sample: Sample) {
    !(sample.reading.Some? && 0 <= sample.reading.value <= 120 && sample.reading.value < limit)
  }

  /** A bad sample finds the service active, stops it, and sees it stopped. */
  predicate Stopped(limit: int, sample: Sample) {
    Hot(limit, sample) && sample.service.active && sample.service.stops && !sample.service.activeAfterStop
  }

  /** The run of cool samples that ends with this one has lasted the dwell time. */
  predicate Rested(limit: int, events: seq<Event>, sample: Sample, delivered: bool) {
    var longer := events + [Take(sample, delivered)];
    var start := CoolStart(limit, longer);
    start.Some? && sample.coolNow - longer[start.value].sample.coolNow >= 30_000
  }

  lemma RestedExactly(limit: int, file: Option<File>, events: seq<Event>, sample: Sample, delivered: bool)
    requires Run(limit, file, events).guard.cooling
    ensures var since := Run(limit, file, events).guard.coolSince;
      Rested(limit, events, sample, delivered) <==>
        Cool(limit, sample) && sample.coolNow - (if since.Some? then since.value else sample.coolNow) >= DWELL
  {
    CoolSinceExactly(limit, file, events);
    var longer := events + [Take(sample, delivered)];
    assert longer[..|longer| - 1] == events;
    assert CoolAt(limit, longer, |events|) <==> Cool(limit, sample);
    if CoolStart(limit, events).Some? {
      assert longer[CoolStart(limit, events).value] == events[CoolStart(limit, events).value];
    }
  }

  /**
   What every sample does, after any history. A hot one makes the guard cool, and stops the service exactly if that is
   active; a rested one ends the cooling, exactly if no restart is owed or the restart works. Nothing else is asked of
   the service, and nothing else changes either state.
  */
  lemma SampleExactly(limit: int, file: Option<File>, events: seq<Event>, sample: Sample, delivered: bool)
    ensures var g, t := Run(limit, file, events).guard, Run(limit, file, events + [Take(sample, delivered)]);
      var hot, service := Hot(limit, sample), sample.service;
      var due := g.cooling && Rested(limit, events, sample, delivered) && !hot;
      var restarts := due && g.owed;
      && |t.outputs| == |events| + 1 && t.outputs[|events|].Some?
      && var output := t.outputs[|events|].value;
         && (t.guard.cooling <==> hot || (g.cooling && !due) || (restarts && !(service.starts && service.activeAfterStart)))
         && (t.guard.owed <==> if hot then g.owed || Stopped(limit, sample) else g.owed && t.guard.cooling)
         && (Stop in output.commands <==> hot && service.active)
         && (Start in output.commands <==> restarts)
         && (output.file.stopConfirmed == None <==> !(hot && service.active))
         && (output.file.stopConfirmed == Some(true) <==> Stopped(limit, sample))
         && output.commands ==
              (if hot then (if !service.active then [Ask] else if service.stops then [Ask, Stop, Ask] else [Ask, Stop])
               else if restarts then (if service.starts then [Start, Ask] else [Start]) else [])
  {
    assert (events + [Take(sample, delivered)])[..|events|] == events;
    InvHolds(limit, file, events);
    assert Bad(limit, sample) <==> Hot(limit, sample);
    if Run(limit, file, events).guard.cooling {
      RestedExactly(limit, file, events, sample, delivered);
    }
  }

  /** What a sample writes down: the state it leads to, and for a change of state the message about it. */
  lemma SampleIsRecorded(limit: int, file: Option<File>, events: seq<Event>, sample: Sample, delivered: bool)
    ensures var g, t := Run(limit, file, events).guard, Run(limit, file, events + [Take(sample, delivered)]);
      && |t.outputs| == |events| + 1 && t.outputs[|events|].Some?
      && var output, after := t.outputs[|events|].value, t.guard;
         && t.file == Some(output.file) && output.file.cooling == after.cooling && output.file.owed == after.owed
         && output.file.incident == after.incident && output.file.limit == limit && output.file.sampledAt == sample.now
         && output.transition == (if !g.cooling && after.cooling then Some(Trip)
                                  else if g.cooling && !after.cooling then Some(Recovery) else None)
         && after.incident == (if !g.cooling && after.cooling then Some(sample.newIncident) else g.incident)
         && output.file.pending == (
              if output.transition.None? then g.pending
              else Some(Pending(output.transition.value, after.incident, Temperature(sample), output.file.stopConfirmed)))
  {
    assert (events + [Take(sample, delivered)])[..|events|] == events;
    InvHolds(limit, file, events);
  }

  /** A restart of the guard keeps the state that was written, and forgets only the run of cool samples. */
  lemma ReloadExactly(limit: int, file: Option<File>, events: seq<Event>)
    ensures var g, t := Run(limit, file, events).guard, Run(limit, file, events + [Reload]);
      && t.guard.cooling == g.cooling && t.guard.owed == g.owed && t.guard.coolSince.None?
      && (g.cooling ==> t.guard.incident == g.incident) && t.file == Run(limit, file, events).file
  {
    assert (events + [Reload])[..|events|] == events;
    InvHolds(limit, file, events);
  }

  predicate StoppedAt(limit: int, events: seq<Event>, k: nat)
    requires k < |events|
  {
    events[k].Take? && Stopped(limit, events[k].sample)
  }

  /** The guard was cooling before the k-th event and ready after it. */
  ghost predicate RecoveredAt(limit: int, file: Option<File>, events: seq<Event>, k: nat)
    requires k < |events|
  {
    Run(limit, file, events[..k]).guard.cooling && !Run(limit, file, events[..k + 1]).guard.cooling
  }

  ghost predicate OwedSince(limit: int, file: Option<File>, events: seq<Event>, k: nat) {
    forall j | k <= j < |events| :: !RecoveredAt(limit, file, events, j)
  }

  /** The state file the first guard process found records a debt. */
  predicate DebtInFile(file: Option<File>) {
    file.Some? && file.value.cooling && file.value.owed
  }

  ghost predicate OwedBySamples(limit: int, file: Option<File>, events: seq<Event>) {
    || (DebtInFile(file) && OwedSince(limit, file, events, 0))
    || exists k | 0 <= k < |events| :: StoppedAt(limit, events, k) && OwedSince(limit, file, events, k)
  }

  lemma OwedBySamplesStep(limit: int, file: Option<File>, events: seq<Event>, e: Event)
    requires StoppedAt(limit, events + [e], |events|) ==> !RecoveredAt(limit, file, events + [e], |events|)
    ensures OwedBySamples(limit, file, events + [e]) <==>
      && !RecoveredAt(limit, file, events + [e], |events|)
      && (OwedBySamples(limit, file, events) || StoppedAt(limit, events + [e], |events|))
  {
    var longer := events + [e];
    forall k | 0 <= k < |events|
      ensures RecoveredAt(limit, file, longer, k) == RecoveredAt(limit, file, events, k)
      ensures StoppedAt(limit, longer, k) == StoppedAt(limit, events, k)
    {
      assert longer[..k] == events[..k] && longer[..k + 1] == events[..k + 1];
    }
    forall k | 0 <= k <= |events|
      ensures OwedSince(limit, file, longer, k) <==>
        OwedSince(limit, file, events, k) && !RecoveredAt(limit, file, longer, |events|)
    {
      if OwedSince(limit, file, longer, k) {
        forall j | k <= j < |events| ensures !RecoveredAt(limit, file, events, j) {
          assert !RecoveredAt(limit, file, longer, j);
        }
      }
    }
  }

  /**
   A restart is owed exactly for a stop that worked on some hot sample, or one the state file told of, with no
   recovery since, across any restarts of the guard.
  */
  lemma {:induction false} OwedExactlyBySamples(limit: int, file: Option<File>, events: seq<Event>)
    ensures Run(limit, file, events).guard.owed <==> OwedBySamples(limit, file, events)
  {
    if events != [] {
      var init, e := events[..|events| - 1], events[|events| - 1];
      OwedExactlyBySamples(limit, file, init);
      assert events == init + [e] && events[..|events|] == events;
      InvHolds(limit, file, init);
      if e.Take? {
        SampleExactly(limit, file, init, e.sample, e.delivered);
      } else {
        ReloadExactly(limit, file, init);
      }
      assert events[..|init|] == init && events[..|init| + 1] == events;
      OwedBySamplesStep(limit, file, init, e);
    }
  }

  // ----- transitions -----

  function Transitions(outputs: seq<Option<Output>>): seq<Transition> {
    if outputs == [] then []
    else
      var last := outputs[|outputs| - 1];
      Transitions(outputs[..|outputs| - 1])
      + if last.Some? && last.value.transition.Some? then [last.value.transition.value] else []
  }

  /** The transition that can follow n others. */
  function Expected(startsCooling: bool, n: nat): Transition {
    if n == 0 then (if startsCooling then Recovery else Trip)
    else if Expected(startsCooling, n - 1) == Trip then Recovery else Trip
  }

  lemma AlternationStep(startsCooling: bool, before: Trace, after: Trace)
    requires |after.outputs| == |before.outputs| + 1 && after.outputs[..|before.outputs|] == before.outputs
    requires Moves(before.guard, after.guard, after.outputs[|before.outputs|])
    requires forall k | 0 <= k < |Transitions(before.outputs)| :: Transitions(before.outputs)[k] == Expected(startsCooling, k)
    requires before.guard.cooling <==> Expected(startsCooling, |Transitions(before.outputs)|) == Recovery
    ensures forall k | 0 <= k < |Transitions(after.outputs)| :: Transitions(after.outputs)[k] == Expected(startsCooling, k)
    ensures after.guard.cooling <==> Expected(startsCooling, |Transitions(after.outputs)|) == Recovery
  {
  }

  /** Trips and recoveries alternate, across restarts, and the guard cools exactly between a trip and a recovery. */
  lemma {:induction false} TransitionsAlternate(limit: int, file: Option<File>, events: seq<Event>)
    ensures var t := Run(limit, file, events); var transitions := Transitions(t.outputs);
      && (forall k | 0 <= k < |transitions| :: transitions[k] == Expected(Load(file).cooling, k))
      && (t.guard.cooling <==> Expected(Load(file).cooling, |transitions|) == Recovery)
  {
    if events != [] {
      var init := events[..|events| - 1];
      TransitionsAlternate(limit, file, init);
      InvHolds(limit, file, init);
      ExecShape(limit, Run(limit, file, init), events[|events| - 1]);
      AlternationStep(Load(file).cooling, Run(limit, file, init), Run(limit, file, events));
    }
  }

  // ----- messages -----

  /** The last transition of a history. */
  ghost predicate LastTransition(limit: int, file: Option<File>, events: seq<Event>, k: nat) {
    var outputs := Run(limit, file, events).outputs;
    && |outputs| == |events| && k < |events| && outputs[k].Some? && outputs[k].value.transition.Some?
    && forall j | k < j < |events| && outputs[j].Some? :: outputs[j].value.transition.None?
  }

  predicate DeliveredAt(events: seq<Event>, j: nat)
    requires j < |events|
  {
    events[j].Take? && events[j].delivered
  }

  /** It was handed over, and no new process was started before the next sample recorded that. */
  ghost predicate Forgotten(events: seq<Event>, k: nat) {
    exists j | k <= j < |events| :: DeliveredAt(events, j) && (j + 1 < |events| ==> events[j + 1].Take?)
  }

  /** The state file knows. */
  ghost predicate ForgottenInFile(events: seq<Event>, k: nat) {
    exists j | k <= j < |events| - 1 :: DeliveredAt(events, j) && events[j + 1].Take?
  }

  lemma ForgottenStep(events: seq<Event>, e: Event, k: nat)
    requires k < |events|
    ensures ForgottenInFile(events + [e], k) <==> ForgottenInFile(events, k) || (e.Take? && Forgotten(events, k))
    ensures Forgotten(events + [e], k) <==> ForgottenInFile(events + [e], k) || (e.Take? && e.delivered)
  {
    var longer := events + [e];
    forall j | 0 <= j < |events| ensures DeliveredAt(longer, j) == DeliveredAt(events, j) && longer[j] == events[j] {
    }
    if e.Take? && e.delivered {
      assert DeliveredAt(longer, |events|);
    }
  }

  /** The message is pending in the process and in the file, unless forgotten there. */
  predicate PendingIs(t: Trace, message: Option<Pending>, forgotten: bool, inFile: bool) {
    && t.guard.pending == (if forgotten then None else message)
    && t.file.Some? && t.file.value.pending == (if inFile then None else message)
  }

  lemma PendingStep(limit: int, t: Trace, e: Event, message: Option<Pending>, forgotten: bool, inFile: bool)
    requires PendingIs(t, message, forgotten, inFile) && (inFile ==> forgotten)
    requires var output := Exec(limit, t, e).outputs[|t.outputs|]; output.Some? ==> output.value.transition.None?
    ensures PendingIs(
      Exec(limit, t, e), message,
      inFile || (e.Take? && (forgotten || e.delivered)), inFile || (e.Take? && forgotten))
  {
  }

  /**
   What the guard still has to hand over: always the message of its last transition, unless that was handed over and
   no restart made it forget so. So no message is lost, and one is repeated exactly if a restart comes between its
   delivery and the next sample.
  */
  lemma {:induction false} PendingIsTheLastTransition(limit: int, file: Option<File>, events: seq<Event>, k: nat)
    requires LastTransition(limit, file, events, k)
    ensures var t := Run(limit, file, events);
      && |t.outputs| == |events|
      && var output := t.outputs[k].value;
         && output.file.pending.Some? && output.file.pending.value.phase == output.transition.value
         && PendingIs(t, output.file.pending, Forgotten(events, k), ForgottenInFile(events, k))
  {
    var n := |events| - 1;
    var init := events[..n];
    assert events == init + [events[n]];
    InvHolds(limit, file, init);
    if k < n {
      EarlierTransition(limit, file, events, k);
      PendingIsTheLastTransition(limit, file, init, k);
      ForgottenStep(init, events[n], k);
      PendingStep(
        limit, Run(limit, file, init), events[n], Run(limit, file, events).outputs[k].value.file.pending,
        Forgotten(init, k), ForgottenInFile(init, k));
    } else {
      assert DeliveredAt(events, n) ==> Forgotten(events, k);
    }
  }

  lemma EarlierTransition(limit: int, file: Option<File>, events: seq<Event>, k: nat)
    requires LastTransition(limit, file, events, k) && k < |events| - 1
    ensures var init := events[..|events| - 1];
      && LastTransition(limit, file, init, k) && |Run(limit, file, init).outputs| == |init|
      && Run(limit, file, init).outputs[k] == Run(limit, file, events).outputs[k]
  {
    var init := events[..|events| - 1];
    InvHolds(limit, file, init);
    var before, after := Run(limit, file, init), Run(limit, file, events);
    assert after.outputs[..|init|] == before.outputs;
    forall j | 0 <= j < |init| ensures after.outputs[j] == before.outputs[j] {
    }
  }

  // ----- preflight -----

  predicate Available(file: Option<File>, limit: int, now: int) {
    file.Some? && !file.value.cooling && 0 <= now - file.value.sampledAt <= FRESH && file.value.limit == limit
  }

  /** `check`: whether a local call may start. */
  predicate Preflight(file: Option<File>, limit: int, now: int) {
    Available(file, limit, now) && file.value.temperature.Some? && file.value.temperature.value < limit
  }

  /** The most recent event that took a sample. */
  function LastTake(events: seq<Event>): (k: Option<nat>)
    ensures k.Some? ==> k.value < |events| && events[k.value].Take?
    ensures k.Some? ==> forall j | k.value < j < |events| :: events[j].Reload?
    ensures k.None? ==> forall j | 0 <= j < |events| :: events[j].Reload?
  {
    if events == [] then None
    else if events[|events| - 1].Take? then Some(|events| - 1)
    else LastTake(events[..|events| - 1])
  }

  /** The file always describes the last sample taken. */
  lemma {:induction false} FileIsLastSample(limit: int, file: Option<File>, events: seq<Event>)
    requires LastTake(events).Some?
    ensures var sample, written := events[LastTake(events).value].sample, Run(limit, file, events).file;
      && written.Some? && written.value.sampledAt == sample.now && written.value.temperature == Temperature(sample)
      && (Bad(limit, sample) ==> written.value.cooling)
  {
    if events[|events| - 1].Reload? {
      FileIsLastSample(limit, file, events[..|events| - 1]);
    }
  }

  /** A call starts only on a sample that is at most three seconds old and good; without one yet, on such a file. */
  lemma PreflightIsFresh(limit: int, file: Option<File>, events: seq<Event>, now: int)
    requires Preflight(Run(limit, file, events).file, limit, now)
    ensures var last := LastTake(events);
      if last.Some? then
        && !Bad(limit, events[last.value].sample) && Temperature(events[last.value].sample).Some?
        && Temperature(events[last.value].sample).value < limit
        && 0 <= now - events[last.value].sample.now <= FRESH
      else
        && file.Some? && !file.value.cooling && file.value.temperature.Some? && file.value.temperature.value < limit
        && 0 <= now - file.value.sampledAt <= FRESH
  {
    if LastTake(events).Some? {
      FileIsLastSample(limit, file, events);
    } else {
      OnlyReloadsKeepTheFile(limit, file, events);
    }
  }

  /** Exactly when a call may start, once a sample was taken: the guard is ready and its last sample fresh. */
  lemma PreflightExactlyWhen(limit: int, file: Option<File>, events: seq<Event>, now: int)
    requires LastTake(events).Some?
    ensures Preflight(Run(limit, file, events).file, limit, now) <==>
      && !Run(limit, file, events).guard.cooling && 0 <= now - events[LastTake(events).value].sample.now <= 3_000
      && !Hot(limit, events[LastTake(events).value].sample)
  {
    FileIsLastSample(limit, file, events);
    InvHolds(limit, file, events);
    FileHasTheLimit(limit, file, events);
  }

  lemma {:induction false} FileHasTheLimit(limit: int, file: Option<File>, events: seq<Event>)
    requires LastTake(events).Some?
    ensures Run(limit, file, events).file.Some? && Run(limit, file, events).file.value.limit == limit
  {
    if events[|events| - 1].Reload? {
      FileHasTheLimit(limit, file, events[..|events| - 1]);
    }
  }

  lemma {:induction false} OnlyReloadsKeepTheFile(limit: int, file: Option<File>, events: seq<Event>)
    requires LastTake(events).None?
    ensures Run(limit, file, events).file == file
  {
    if events != [] {
      OnlyReloadsKeepTheFile(limit, file, events[..|events| - 1]);
    }
  }

  /** And after any earlier bad sample the card has cooled down in full, with nothing bad since. */
  lemma PreflightIsSafe(limit: int, file: Option<File>, events: seq<Event>, now: int, bad: nat)
    requires Preflight(Run(limit, file, events).file, limit, now)
    requires bad < |events| && BadAt(limit, events, bad)
    ensures LastTake(events).Some? && bad < LastTake(events).value
    ensures exists from, to | bad < from <= to < |events| ::
      CoolRun(limit, events, from, to) && NoBadAfter(limit, events, to)
  {
    InvHolds(limit, file, events);
    ReadyNeedsACoolRun(limit, file, events, bad);
    FileIsLastSample(limit, file, events);
  }
}
