/**
 One GPU holder at a time, chosen from waiting tickets by class, age and arrival (gpu_lease.py).
 Times are whole milliseconds of the machine's monotonic clock; tickets are never reused.
*/
module GpuLease {
  import opened Wrappers

  const AGE := 30_000
  const GRACE := 2_000

  type Ticket = nat

  datatype Entry = Entry(priority: nat, created: int, expires: int)

  datatype Holder = Free | Leased(ticket: Ticket) | Outside

  // ----- the order of the queue -----

  /** SQLite's integer cast of the age in whole steps: truncation towards zero. */
  function AgeSteps(waited: int): int {
    if waited >= 0 then waited / AGE else -(-waited / AGE)
  }

  function Rank(entry: Entry, now: int): int {
    var rank := entry.priority - AgeSteps(now - entry.created);
    if rank > 0 then rank else 0
  }

  /** Earlier arrival, by creation time and then by ticket. */
  predicate Older(t: Ticket, a: Entry, u: Ticket, b: Entry) {
    a.created < b.created || (a.created == b.created && t < u)
  }

  /** `ORDER BY rank, created, id`. */
  predicate Precedes(t: Ticket, a: Entry, u: Ticket, b: Entry, now: int) {
    Rank(a, now) < Rank(b, now) || (Rank(a, now) == Rank(b, now) && Older(t, a, u, b))
  }

  predicate IsHead(waiting: map<Ticket, Entry>, t: Ticket, now: int) {
    t in waiting && forall u <- waiting :: u == t || Precedes(t, waiting[t], u, waiting[u], now)
  }

  /** Whether the queue ranks an entry with no regard for its class any more. */
  predicate FullyAged(entry: Entry, now: int) {
    now - entry.created >= AGE * entry.priority
  }

  /** The order is total on distinct tickets, so there is at most one head. */
  lemma PrecedesIsTotal(t: Ticket, a: Entry, u: Ticket, b: Entry, now: int)
    requires t != u
    ensures Precedes(t, a, u, b, now) <==> !Precedes(u, b, t, a, now)
  {
  }

  lemma AgedRanksFirst(entry: Entry, now: int)
    ensures now >= entry.created ==> (Rank(entry, now) == 0 <==> FullyAged(entry, now))
  {
    if now >= entry.created {
      var waited := now - entry.created;
      assert waited == AGE * (waited / AGE) + waited % AGE;
      if FullyAged(entry, now) {
        assert AGE * (waited / AGE) + AGE > AGE * entry.priority;
      }
    }
  }

  lemma AgeStepsAdd(gap: nat, waited: nat)
    ensures gap / AGE + waited / AGE <= AgeSteps(gap + waited)
  {
  }

  /**
   Exactly when an earlier ticket can be overtaken. A later ticket is ahead of it at some moment of the later
   ticket's wait if and only if the class difference outweighs the whole age steps between their arrivals.
  */
  lemma OvertakenIffClassOutweighsAge(t: Ticket, a: Entry, u: Ticket, b: Entry)
    requires Older(t, a, u, b)
    ensures (forall now | now >= b.created :: Precedes(t, a, u, b, now))
      <==> a.priority <= b.priority + (b.created - a.created) / AGE
  {
    var gap := b.created - a.created;
    if a.priority <= b.priority + gap / AGE {
      forall now | now >= b.created ensures Precedes(t, a, u, b, now) {
        AgeStepsAdd(gap, now - b.created);
      }
    } else {
      assert Rank(a, b.created) > Rank(b, b.created);
      assert !Precedes(t, a, u, b, b.created);
    }
  }

  /** Before full ageing the order of two tickets may swing back and forth: here it changes three times. */
  lemma OrderMaySwing()
    ensures var a, b := Entry(2, 0, 180_000), Entry(1, 20_000, 200_000);
      && !Precedes(0, a, 1, b, 29_000) && Precedes(0, a, 1, b, 30_000)
      && !Precedes(0, a, 1, b, 50_000) && Precedes(0, a, 1, b, 60_000)
  {
  }

  // ----- the system -----

  datatype System = System(
    waiting: map<Ticket, Entry>, holder: Holder, alive: set<Ticket>, used: set<Ticket>, clock: int, grants: seq<Ticket>)

  const INITIAL := System(map[], Free, {}, {}, 0, [])

  datatype Step =
    | Arrive(t: Ticket, entry: Entry, now: int)
    | Poll(t: Ticket, now: int)
    | Inspect(now: int)
    | Release(t: Ticket)
    | GiveUp(t: Ticket)
    | Die(t: Ticket)
    | Seize
    | Yield

  /** A ticket that pruning keeps. */
  predicate Live(sys: System, t: Ticket, now: int) {
    t in sys.waiting && t in sys.alive && sys.waiting[t].expires >= now
  }

  function Pruned(waiting: map<Ticket, Entry>, alive: set<Ticket>, now: int): map<Ticket, Entry> {
    map t | t in waiting && t in alive && waiting[t].expires >= now :: waiting[t]
  }

  function PollStep(sys: System, t: Ticket, now: int): System {
    var waiting := Pruned(sys.waiting, sys.alive, now);
    if IsHead(waiting, t, now) && sys.holder == Free then
      sys.(waiting := waiting - {t}, holder := Leased(t), clock := now, grants := sys.grants + [t])
    else sys.(waiting := waiting, clock := now)
  }

  /** An arrival's creation stamp is read before its row commits, so it may lie in the past. */
  function Exec(sys: System, step: Step): System {
    match step
    case Arrive(t, entry, now) =>
      if t in sys.used || now < sys.clock || entry.created > now then sys
      else sys.(waiting := sys.waiting[t := entry], alive := sys.alive + {t}, used := sys.used + {t}, clock := now)
    case Poll(t, now) => if now < sys.clock || t !in sys.alive then sys else PollStep(sys, t, now)
    case Inspect(now) =>
      if now < sys.clock then sys else sys.(waiting := Pruned(sys.waiting, sys.alive, now), clock := now)
    case Release(t) => if sys.holder == Leased(t) then sys.(holder := Free) else sys
    case GiveUp(t) => sys.(waiting := sys.waiting - {t})
    case Die(t) => sys.(alive := sys.alive - {t}, holder := if sys.holder == Leased(t) then Free else sys.holder)
    case Seize => if sys.holder == Free then sys.(holder := Outside) else sys
    case Yield => if sys.holder == Outside then sys.(holder := Free) else sys
  }

  function Run(sys: System, steps: seq<Step>): System {
    if steps == [] then sys else Exec(Run(sys, steps[..|steps| - 1]), steps[|steps| - 1])
  }

  /** One more step of a run. */
  lemma Extend(start: System, steps: seq<Step>, step: Step) returns (longer: seq<Step>)
    ensures longer == steps + [step] && Run(start, longer) == Exec(Run(start, steps), step)
  {
    longer := steps + [step];
    assert longer[..|longer| - 1] == steps;
  }

  lemma {:induction false} RunConcat(start: System, a: seq<Step>, b: seq<Step>)
    ensures Run(start, a + b) == Run(Run(start, a), b)
    decreases |b|
  {
    if b == [] {
      assert a + b == a;
    } else {
      RunConcat(start, a, b[..|b| - 1]);
      assert (a + b)[..|a + b| - 1] == a + b[..|b| - 1];
    }
  }

  ghost predicate Inv(sys: System) {
    && (forall t <- sys.waiting :: t in sys.used && sys.waiting[t].created <= sys.clock)
    && (forall t <- sys.grants :: t in sys.used && t !in sys.waiting)
    && (forall i, j | 0 <= i < j < |sys.grants| :: sys.grants[i] != sys.grants[j])
    && (sys.holder.Leased? ==> sys.holder.ticket in sys.grants)
  }

  lemma ExecKeeps(sys: System, step: Step)
    requires Inv(sys)
    ensures Inv(Exec(sys, step))
  {
  }

  lemma {:induction false} RunKeeps(sys: System, steps: seq<Step>)
    requires Inv(sys)
    ensures Inv(Run(sys, steps))
  {
    if steps != [] {
      RunKeeps(sys, steps[..|steps| - 1]);
      ExecKeeps(Run(sys, steps[..|steps| - 1]), steps[|steps| - 1]);
    }
  }

  /** Every state a run of the empty queue passes through satisfies the invariant the theorems ask for. */
  lemma ReachableInv(steps: seq<Step>)
    ensures Inv(Run(INITIAL, steps))
  {
    RunKeeps(INITIAL, steps);
  }

  // ----- who is granted -----

  /** The tickets waiting that arrived before t. */
  function OlderThan(sys: System, t: Ticket): set<Ticket>
    requires t in sys.waiting
  {
    set u | u in sys.waiting && u != t && Older(u, sys.waiting[u], t, sys.waiting[t])
  }

  predicate Grants(sys: System, step: Step, u: Ticket) {
    Exec(sys, step).grants == sys.grants + [u]
  }

  /** Every grant takes the lock while it is free, and gives it to the ticket that precedes all live ones. */
  lemma GrantsGoToTheHead(sys: System, step: Step, u: Ticket)
    requires Inv(sys) && Grants(sys, step, u)
    ensures step.Poll? && step.t == u && sys.holder == Free && Exec(sys, step).holder == Leased(u)
    ensures Live(sys, u, step.now) && u !in Exec(sys, step).waiting && step.now >= sys.clock
    ensures forall t | Live(sys, t, step.now) && t != u ::
      Precedes(u, sys.waiting[u], t, sys.waiting[t], step.now)
  {
    assert Exec(sys, step).grants[|sys.grants|] == u;
    var waiting := Pruned(sys.waiting, sys.alive, step.now);
    assert IsHead(waiting, u, step.now);
    forall t | Live(sys, t, step.now) && t != u
      ensures Precedes(u, sys.waiting[u], t, sys.waiting[t], step.now)
    {
      assert t in waiting;
    }
  }

  /** What a ticket needs to be granted: a free lock, to be live itself, and to precede every other live ticket. */
  predicate Entitled(waiting: map<Ticket, Entry>, alive: set<Ticket>, holder: Holder, t: Ticket, now: int) {
    && holder == Free && t in waiting && t in alive && now <= waiting[t].expires
    && forall u <- waiting | u != t && u in alive && now <= waiting[u].expires ::
         Precedes(t, waiting[t], u, waiting[u], now)
  }

  /**
   Over every step: a ticket is granted exactly when it polls, entitled, at a time no one has gone beyond; and then it
   leaves the queue and holds the lock. So a free lock is never withheld from the first live ticket, whatever its age.
  */
  lemma GrantedExactlyWhen(sys: System, step: Step, t: Ticket)
    ensures Grants(sys, step, t) <==>
      step.Poll? && step.t == t && sys.clock <= step.now && Entitled(sys.waiting, sys.alive, sys.holder, t, step.now)
    ensures Grants(sys, step, t) ==>
      var next := Exec(sys, step);
      && next == sys.(waiting := next.waiting, holder := Leased(t), clock := step.now, grants := sys.grants + [t])
      && forall u :: u in next.waiting <==> u != t && Live(sys, u, step.now)
  {
    if Grants(sys, step, t) {
      assert Exec(sys, step).grants[|sys.grants|] == t;
    }
    if step.Poll? && sys.clock <= step.now && step.t in sys.alive {
      var waiting := Pruned(sys.waiting, sys.alive, step.now);
      assert forall u :: u in waiting <==> Live(sys, u, step.now);
      if IsHead(waiting, step.t, step.now) {
        forall u <- sys.waiting | u != step.t && u in sys.alive && step.now <= sys.waiting[u].expires
          ensures Precedes(step.t, sys.waiting[step.t], u, sys.waiting[u], step.now)
        {
          assert u in waiting;
        }
      }
    }
  }

  /** In particular a lone live ticket gets a free lock on its first poll. */
  lemma LoneTicketIsGranted(sys: System, t: Ticket, now: int)
    requires sys.clock <= now && sys.holder == Free && Live(sys, t, now)
    requires forall u <- sys.waiting | u != t :: !Live(sys, u, now)
    ensures Grants(sys, Poll(t, now), t) && Exec(sys, Poll(t, now)).holder == Leased(t)
  {
    GrantedExactlyWhen(sys, Poll(t, now), t);
  }

  /** Apart from grants the lock changes hands only by release, by the holder's death, and by what is outside. */
  lemma LockChangesExactlyWhen(sys: System, step: Step)
    ensures sys.holder.Leased? && Exec(sys, step).holder != sys.holder <==>
      sys.holder.Leased? && (step == Release(sys.holder.ticket) || step == Die(sys.holder.ticket))
    ensures sys.holder.Leased? && Exec(sys, step).holder != sys.holder ==> Exec(sys, step).holder == Free
  {
  }

  /** Once a live ticket has waited out its class, only tickets that arrived before it are granted ahead of it. */
  lemma NoLaterGrantBeforeAged(sys: System, step: Step, t: Ticket, u: Ticket)
    requires Inv(sys) && Grants(sys, step, u) && u != t
    requires t in sys.waiting && Live(sys, t, step.now) && FullyAged(sys.waiting[t], step.now)
    ensures u in OlderThan(sys, t)
  {
    GrantsGoToTheHead(sys, step, u);
    AgedRanksFirst(sys.waiting[t], step.now);
  }

  /** An earlier live ticket of an equal or better class is never passed over. */
  lemma EqualClassIsNotOvertaken(sys: System, step: Step, t: Ticket, u: Ticket)
    requires Inv(sys) && Grants(sys, step, u) && u != t
    requires t in sys.waiting && Live(sys, t, step.now) && u in sys.waiting
    requires sys.waiting[t].priority <= sys.waiting[u].priority
    ensures u in OlderThan(sys, t)
  {
    GrantsGoToTheHead(sys, step, u);
    var a, b := sys.waiting[t], sys.waiting[u];
    if Older(t, a, u, b) {
      OvertakenIffClassOutweighsAge(t, a, u, b);
      assert (b.created - a.created) / AGE >= 0;
      PrecedesIsTotal(t, a, u, b, step.now);
    }
  }

  /** A free lock goes to an aged live ticket as soon as no live ticket arrived before it. */
  lemma AgedHeadIsGranted(sys: System, t: Ticket, now: int)
    requires Inv(sys) && now >= sys.clock && sys.holder == Free
    requires t in sys.waiting && Live(sys, t, now) && FullyAged(sys.waiting[t], now)
    requires forall u <- OlderThan(sys, t) :: !Live(sys, u, now)
    ensures Grants(sys, Poll(t, now), t)
  {
    AgedRanksFirst(sys.waiting[t], now);
    var waiting := Pruned(sys.waiting, sys.alive, now);
    forall u <- waiting | u != t ensures Precedes(t, waiting[t], u, waiting[u], now) {
      assert u !in OlderThan(sys, t);
    }
  }

  // ----- bounded overtaking over runs -----

  /** An arrival that commits late: stamped before a ticket that is already waiting. */
  predicate ArrivesLate(sys: System, step: Step, t: Ticket) {
    && step.Arrive? && step.t !in sys.used && step.now >= sys.clock && step.entry.created <= step.now
    && t in sys.waiting && Older(step.t, step.entry, t, sys.waiting[t])
  }

  function LateArrivals(sys: System, steps: seq<Step>, t: Ticket): nat {
    if steps == [] then 0
    else
      var init, step := Run(sys, steps[..|steps| - 1]), steps[|steps| - 1];
      LateArrivals(sys, steps[..|steps| - 1], t)
      + if ArrivesLate(init, step, t) then 1 else 0
  }

  /** Throughout the run the ticket waits, alive and unexpired, at every poll. */
  ghost predicate StaysLive(sys: System, steps: seq<Step>, t: Ticket) {
    forall k | 0 <= k < |steps| :: steps[k].Poll? ==> Live(Run(sys, steps[..k]), t, steps[k].now)
  }

  lemma SmallerSet(a: set<Ticket>, b: set<Ticket>)
    requires a <= b
    ensures |a| <= |b|
  {
    if a != {} {
      var x :| x in a;
      SmallerSet(a - {x}, b - {x});
    }
  }

  lemma StepSpendsOlder(sys: System, step: Step, t: Ticket)
    requires Inv(sys) && t in sys.waiting && FullyAged(sys.waiting[t], sys.clock) && t in Exec(sys, step).waiting
    requires step.Poll? ==> Live(sys, t, step.now)
    ensures Exec(sys, step).waiting[t] == sys.waiting[t] && Exec(sys, step).clock >= sys.clock
    ensures |Exec(sys, step).grants| - |sys.grants| + |OlderThan(Exec(sys, step), t)|
         <= |OlderThan(sys, t)| + if ArrivesLate(sys, step, t) then 1 else 0
  {
    var sys' := Exec(sys, step);
    var before, after := OlderThan(sys, t), OlderThan(sys', t);
    if sys'.grants != sys.grants {
      var u := step.t;
      assert Grants(sys, step, u);
      NoLaterGrantBeforeAged(sys, step, t, u);
      SmallerSet(after, before - {u});
    } else if step.Arrive? {
      SmallerSet(after, before + {step.t});
      if !ArrivesLate(sys, step, t) {
        SmallerSet(after, before);
      }
    } else {
      SmallerSet(after, before);
    }
  }

  /**
   Bounded overtaking. From the moment a ticket has waited out its class until it leaves the queue, the grants
   to others plus the older tickets still waiting never exceed the older tickets waiting at that moment, plus
   the arrivals that committed late. Without late arrivals every grant to another shrinks the older set.
  */
  lemma {:induction false} OvertakingIsBounded(sys: System, steps: seq<Step>, t: Ticket)
    requires Inv(sys) && t in sys.waiting && FullyAged(sys.waiting[t], sys.clock)
    requires t in Run(sys, steps).waiting && StaysLive(sys, steps, t)
    ensures Run(sys, steps).waiting[t] == sys.waiting[t] && Run(sys, steps).clock >= sys.clock
    ensures |Run(sys, steps).grants| - |sys.grants| + |OlderThan(Run(sys, steps), t)|
         <= |OlderThan(sys, t)| + LateArrivals(sys, steps, t)
  {
    if steps != [] {
      var prefix, step := steps[..|steps| - 1], steps[|steps| - 1];
      var init := Run(sys, prefix);
      RunKeeps(sys, prefix);
      UsedGrows(sys, prefix);
      assert t in init.waiting;
      forall k | 0 <= k < |prefix| && prefix[k].Poll? ensures Live(Run(sys, prefix[..k]), t, prefix[k].now) {
        assert prefix[..k] == steps[..k] && steps[k].Poll?;
      }
      OvertakingIsBounded(sys, prefix, t);
      StepSpendsOlder(init, step, t);
    }
  }

  lemma {:induction false} UsedGrows(sys: System, steps: seq<Step>)
    ensures sys.used <= Run(sys, steps).used
  {
    if steps != [] {
      UsedGrows(sys, steps[..|steps| - 1]);
    }
  }

  /** With arrivals stamped when they commit, an aged ticket sees at most as many grants as tickets older than it. */
  lemma {:induction false} NoLateArrivals(sys: System, steps: seq<Step>, t: Ticket)
    requires Inv(sys) && t in sys.waiting && sys.waiting[t].created < sys.clock
    requires forall k | 0 <= k < |steps| && steps[k].Arrive? :: steps[k].entry.created == steps[k].now
    ensures LateArrivals(sys, steps, t) == 0
    ensures Run(sys, steps).clock >= sys.clock
    ensures t in Run(sys, steps).waiting ==> Run(sys, steps).waiting[t] == sys.waiting[t]
  {
    if steps != [] {
      var prefix := steps[..|steps| - 1];
      NoLateArrivals(sys, prefix, t);
      RunKeeps(sys, prefix);
      UsedGrows(sys, prefix);
    }
  }

  lemma PromptArrivalsNeverDelay(sys: System, steps: seq<Step>, t: Ticket)
    requires Inv(sys) && t in sys.waiting && FullyAged(sys.waiting[t], sys.clock) && sys.waiting[t].created < sys.clock
    requires t in Run(sys, steps).waiting && StaysLive(sys, steps, t)
    requires forall k | 0 <= k < |steps| && steps[k].Arrive? :: steps[k].entry.created == steps[k].now
    ensures |Run(sys, steps).grants| - |sys.grants| <= |OlderThan(sys, t)|
  {
    NoLateArrivals(sys, steps, t);
    OvertakingIsBounded(sys, steps, t);
  }
}
