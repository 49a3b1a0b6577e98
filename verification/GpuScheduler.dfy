/** The lease as one machine runs it: rows inserted, pruned and deleted in place around a try-lock. */
module GpuScheduler {
  import opened Wrappers
  import opened GpuLease

  datatype Failure = PriorityInvalid | Busy

  /** `PRIORITIES`: the class of each caller. */
  function ClassOf(caller: string): Option<nat> {
    match caller
    case "chat" => Some(0)
    case "reply" => Some(0)
    case "shopper" => Some(1)
    case "background" => Some(2)
    case "coding" => Some(3)
    case _ => None
  }

  /** The row a caller enters: its deadline counts from when it began, its age from just before it entered. */
  function EntryOf(caller: string, begun: int, created: int, timeout: int): Entry
    requires ClassOf(caller).Some?
  {
    Entry(ClassOf(caller).value, created, begun + timeout + GRACE)
  }

  /**
   What the classes come to: a chat or reply call that enters later goes ahead of a waiting shopper, background or
   coding call exactly while that one has waited less than 30, 60 or 90 seconds, and never of another chat or reply.
  */
  lemma ChatGoesAhead(
    caller: string, waiting: string, t: Ticket, u: Ticket, begun: int, created: int, later: int, timeout: int)
    requires caller in {"chat", "reply"} && ClassOf(waiting).Some? && created < later
    ensures var first, second := EntryOf(waiting, begun, created, timeout), EntryOf(caller, begun, later, timeout);
      Precedes(u, second, t, first, later) <==>
        match waiting
        case "shopper" => later - created < 30_000
        case "background" => later - created < 60_000
        case "coding" => later - created < 90_000
        case _ => false
  {
    var waited := later - created;
    assert waited == AGE * (waited / AGE) + waited % AGE;
  }

  /** A step of another process: nothing acts for this ticket but its own process. */
  predicate Foreign(t: Ticket, step: Step) {
    match step
    case Arrive(u, _, _) => u != t
    case Poll(u, _) => u != t
    case Release(u) => u != t
    case GiveUp(u) => u != t
    case Die(u) => u != t
    case _ => true
  }

  predicate AllForeign(t: Ticket, steps: seq<Step>) {
    forall step <- steps :: Foreign(t, step)
  }

  /** What the others do before each poll, and the poll. */
  function Rounds(t: Ticket, instants: seq<int>, others: seq<seq<Step>>, n: nat): seq<Step>
    requires n <= |instants| && n <= |others|
  {
    if n == 0 then [] else Rounds(t, instants, others, n - 1) + others[n - 1] + [Poll(t, instants[n - 1])]
  }

  /** The first n rounds after entering. */
  function Entered(t: Ticket, entry: Entry, entered: int, instants: seq<int>, others: seq<seq<Step>>, n: nat): seq<Step>
    requires n <= |instants| && n <= |others|
  {
    [Arrive(t, entry, entered)] + Rounds(t, instants, others, n)
  }

  /** Enter, poll n times with the others in between, and withdraw if it failed, which takes until the deadline. */
  ghost predicate Attempt(
    t: Ticket, entry: Entry, entered: int, instants: seq<int>, checks: seq<int>, others: seq<seq<Step>>, n: nat,
    failure: Option<Failure>, steps: seq<Step>)
    requires 1 <= n <= |instants| && n <= |others| && n <= |checks|
  {
    && steps == Entered(t, entry, entered, instants, others, n) + (if failure.None? then [] else [GiveUp(t)])
    && (failure.Some? ==> checks[n - 1] >= entry.expires - GRACE)
  }

  /** What a process can see of the system. */
  datatype View = View(waiting: map<Ticket, Entry>, holder: Holder, alive: set<Ticket>)

  function ViewOf(sys: System): View {
    View(sys.waiting, sys.holder, sys.alive)
  }

  /** In what a process sees, the lock is free and its ticket precedes every other live one. */
  predicate IsItsTurn(view: View, t: Ticket, now: int) {
    Entitled(view.waiting, view.alive, view.holder, t, now)
  }

  /** At none of the first n polls it was its turn, and after none of them the deadline had passed. */
  ghost predicate WaitedFor(t: Ticket, deadline: int, instants: seq<int>, checks: seq<int>, views: seq<View>, n: nat) {
    && n <= |instants| && n <= |checks| && n <= |views|
    && forall k | 0 <= k < n :: !IsItsTurn(views[k], t, instants[k]) && checks[k] < deadline
  }

  lemma OneMoreWait(t: Ticket, deadline: int, instants: seq<int>, checks: seq<int>, views: seq<View>, n: nat)
    requires WaitedFor(t, deadline, instants, checks, views, n) && n < |instants| && n < |checks| && n < |views|
    requires !IsItsTurn(views[n], t, instants[n]) && checks[n] < deadline
    ensures WaitedFor(t, deadline, instants, checks, views, n + 1)
  {
  }

  /** Before the poll that follows n others, this is what the process finds, and no one has seen a later time. */
  ghost predicate Finds(
    start: System, t: Ticket, entry: Entry, entered: int, instants: seq<int>, others: seq<seq<Step>>, n: nat, view: View)
    requires n < |instants| && n < |others|
  {
    var sys := Run(Run(start, Entered(t, entry, entered, instants, others, n)), others[n]);
    sys.clock <= instants[n] && ViewOf(sys) == view
  }

  lemma OneMoreRound(
    start: System, t: Ticket, entry: Entry, entered: int, instants: seq<int>, others: seq<seq<Step>>, n: nat)
    requires n < |instants| && n < |others|
    ensures Run(start, Entered(t, entry, entered, instants, others, n + 1)) ==
      Run(Run(start, Entered(t, entry, entered, instants, others, n)), others[n] + [Poll(t, instants[n])])
  {
    var before, round := Entered(t, entry, entered, instants, others, n), others[n] + [Poll(t, instants[n])];
    RunConcat(start, before, round);
    assert before + round == Entered(t, entry, entered, instants, others, n + 1);
  }

  lemma ForeignKeeps(sys: System, step: Step, t: Ticket)
    requires Inv(sys) && Foreign(t, step) && t in sys.used
    ensures var next := Exec(sys, step);
      && Inv(next) && t in next.used && (t in sys.alive ==> t in next.alive) && (t !in sys.grants ==> t !in next.grants)
  {
    ExecKeeps(sys, step);
  }

  lemma {:induction false} ForeignRunKeeps(sys: System, steps: seq<Step>, t: Ticket)
    requires Inv(sys) && AllForeign(t, steps) && t in sys.used
    ensures var next := Run(sys, steps);
      && Inv(next) && t in next.used && (t in sys.alive ==> t in next.alive) && (t !in sys.grants ==> t !in next.grants)
  {
    if steps != [] {
      ForeignRunKeeps(sys, steps[..|steps| - 1], t);
      ForeignKeeps(Run(sys, steps[..|steps| - 1]), steps[|steps| - 1], t);
    }
  }

  class Scheduler {
    var waiting: map<Ticket, Entry>
    var holder: Holder
    /** Which processes exist is the operating system's knowledge; the scheduler only asks. */
    var alive: set<Ticket>
    ghost var model: System

    ghost predicate Valid()
      reads this
    {
      model.waiting == waiting && model.holder == holder && model.alive == alive && Inv(model)
    }

    constructor ()
      ensures Valid() && model == INITIAL
    {
      waiting, holder, alive, model := map[], Free, {}, INITIAL;
    }

    /** `_prune`: one pass over the rows that were there, deleting the expired and the dead. */
    method Prune(now: int)
      modifies this`waiting
      ensures waiting == Pruned(old(waiting), alive, now)
    {
      var rows := waiting.Keys;
      while rows != {}
        invariant rows <= old(waiting).Keys
        invariant forall t <- rows :: t in waiting && waiting[t] == old(waiting)[t]
        invariant forall t | t in old(waiting) && t !in rows ::
          t in waiting <==> t in Pruned(old(waiting), alive, now)
        invariant forall t <- waiting :: t in old(waiting) && waiting[t] == old(waiting)[t]
        decreases |rows|
      {
        var t :| t in rows;
        if waiting[t].expires < now || t !in alive {
          waiting := waiting - {t};
        }
        rows := rows - {t};
      }
    }

    method Enter(t: Ticket, priority: nat, created: int, deadline: int, now: int)
      requires Valid() && t !in model.used && model.clock <= now && created <= now
      modifies this
      ensures Valid() && model == Exec(old(model), Arrive(t, Entry(priority, created, deadline + GRACE), now))
      ensures waiting == old(waiting)[t := Entry(priority, created, deadline + 2_000)] && holder == old(holder)
    {
      var entry := Entry(priority, created, deadline + GRACE);
      ExecKeeps(model, Arrive(t, entry, now));
      model := Exec(model, Arrive(t, entry, now));
      waiting := waiting[t := entry];
      alive := alive + {t};
    }

    /** One turn of the retry loop. */
    method TryAcquire(t: Ticket, now: int) returns (acquired: bool)
      requires Valid() && t in alive && model.clock <= now
      modifies this
      ensures Valid() && model == Exec(old(model), Poll(t, now))
      ensures acquired <==> Entitled(old(waiting), old(alive), old(holder), t, now)
      ensures acquired ==> holder == Leased(t) && t !in waiting
      ensures !acquired ==> holder == old(holder) && model.grants == old(model).grants
    {
      GrantedExactlyWhen(model, Poll(t, now), t);
      ExecKeeps(model, Poll(t, now));
      model := Exec(model, Poll(t, now));
      Prune(now);
      acquired := false;
      if IsHead(waiting, t, now) && holder == Free {
        waiting := waiting - {t};
        holder := Leased(t);
        acquired := true;
      }
    }

    /** What other processes do meanwhile: steps of the model that leave this ticket to its own process. */
    method Others(t: Ticket, ghost steps: seq<Step>, view: View)
      requires Valid() && t in model.used && AllForeign(t, steps) && ViewOf(Run(model, steps)) == view
      modifies this
      ensures Valid() && model == Run(old(model), steps) && t in model.used
      ensures (t in old(alive) ==> t in alive) && (t !in old(model).grants ==> t !in model.grants)
    {
      ForeignRunKeeps(model, steps, t);
      model := Run(model, steps);
      waiting, holder, alive := view.waiting, view.holder, view.alive;
    }

    /** One turn of the loop, with what the others did before it. */
    method Round(t: Ticket, now: int, view: View, ghost others: seq<Step>) returns (acquired: bool)
      requires Valid() && t in model.used && t in alive && t !in model.grants && AllForeign(t, others)
      requires ViewOf(Run(model, others)) == view && Run(model, others).clock <= now
      modifies this
      ensures Valid() && model == Run(old(model), others + [Poll(t, now)]) && t in model.used && t in alive
      ensures acquired <==> IsItsTurn(view, t, now)
      ensures acquired ==> holder == Leased(t) && t !in waiting
      ensures !acquired ==> t !in model.grants
    {
      Others(t, others, view);
      ghost var steps := Extend(old(model), others, Poll(t, now));
      acquired := TryAcquire(t, now);
    }

    /** The round that follows n others. */
    method NextRound(
      t: Ticket, ghost start: System, ghost entry: Entry, ghost entered: int, instants: seq<int>, view: View,
      ghost others: seq<seq<Step>>, n: nat)
      returns (acquired: bool)
      requires Valid() && n < |instants| == |others| && Finds(start, t, entry, entered, instants, others, n, view)
      requires AllForeign(t, others[n])
      requires model == Run(start, Entered(t, entry, entered, instants, others, n))
      requires t in alive && t in model.used && t !in model.grants
      modifies this
      ensures Valid() && model == Run(start, Entered(t, entry, entered, instants, others, n + 1)) && t in model.used && t in alive
      ensures acquired <==> IsItsTurn(view, t, instants[n])
      ensures acquired ==> holder == Leased(t) && t !in waiting
      ensures !acquired ==> t !in model.grants
    {
      OneMoreRound(start, t, entry, entered, instants, others, n);
      acquired := Round(t, instants[n], view, others[n]);
    }

    /** The retry loop, after n rounds. */
    method Wait(
      t: Ticket, ghost start: System, ghost entry: Entry, ghost entered: int, deadline: int, instants: seq<int>,
      checks: seq<int>, views: seq<View>, ghost others: seq<seq<Step>>)
      returns (acquired: bool, ghost n: nat)
      requires Valid() && |others| == |views| == |checks| == |instants| > 0 && checks[|checks| - 1] >= deadline
      requires forall k | 0 <= k < |others| :: AllForeign(t, others[k])
      requires forall n | 0 <= n < |instants| :: Finds(start, t, entry, entered, instants, others, n, views[n])
      requires model == Run(start, Entered(t, entry, entered, instants, others, 0))
      requires t in alive && t in model.used && t !in model.grants
      modifies this
      ensures 1 <= n <= |instants| && Valid() && model == Run(start, Entered(t, entry, entered, instants, others, n))
      ensures acquired ==> holder == Leased(t) && t !in waiting
      ensures acquired <==> IsItsTurn(views[n - 1], t, instants[n - 1])
      ensures WaitedFor(t, deadline, instants, checks, views, n - 1)
      ensures !acquired ==> t !in model.grants && checks[n - 1] >= deadline
    {
      var k := 0;
      while true
        invariant k < |instants| && Valid() && model == Run(start, Entered(t, entry, entered, instants, others, k))
        invariant t in alive && t in model.used && t !in model.grants
        invariant WaitedFor(t, deadline, instants, checks, views, k)
        decreases |instants| - k
      {
        assert Finds(start, t, entry, entered, instants, others, k, views[k]);
        acquired := NextRound(t, start, entry, entered, instants, views[k], others, k);
        n := k + 1;
        if acquired || checks[k] >= deadline {
          return;
        }
        OneMoreWait(t, deadline, instants, checks, views, k);
        k := k + 1;
      }
    }

    /**
     `acquire` up to the yield. The clock is read when it begins, before its row is entered, for each poll and after
     each failed one; other processes take any steps of their own in between. It succeeds at the first poll at which it
     is its turn, and else fails at the first reading past the deadline: withdrawn, and never granted.
    */
    method Acquire(
      t: Ticket, caller: string, timeout: int, begun: int, created: int, entered: int, instants: seq<int>,
      checks: seq<int>, views: seq<View>, ghost others: seq<seq<Step>>)
      returns (failure: Option<Failure>, ghost n: nat, ghost steps: seq<Step>)
      requires Valid() && t !in model.used && |others| == |views| == |checks| == |instants| > 0 && model.clock <= entered
      requires created <= entered
      requires forall k | 0 <= k < |others| :: AllForeign(t, others[k])
      requires ClassOf(caller).Some? ==>
        forall n | 0 <= n < |instants| ::
          Finds(model, t, EntryOf(caller, begun, created, timeout), entered, instants, others, n, views[n])
      requires checks[|checks| - 1] >= begun + timeout
      modifies this
      ensures Valid() && model == Run(old(model), steps)
      ensures failure.None? ==> holder == Leased(t) && t !in waiting
      ensures failure.Some? ==> t !in waiting && t !in model.grants
      ensures failure == Some(PriorityInvalid) <==> ClassOf(caller).None?
      ensures failure != Some(PriorityInvalid) ==>
        && 1 <= n <= |instants|
        && (failure.None? <==> IsItsTurn(views[n - 1], t, instants[n - 1]))
        && WaitedFor(t, begun + timeout, instants, checks, views, n - 1)
        && Attempt(t, EntryOf(caller, begun, created, timeout), entered, instants, checks, others, n, failure, steps)
    {
      n, steps := 0, [];
      var priority := ClassOf(caller);
      if priority.None? {
        assert t !in waiting && t !in model.grants;
        return Some(PriorityInvalid), 0, [];
      }
      ghost var start, entry := model, EntryOf(caller, begun, created, timeout);
      steps := Extend(start, [], Arrive(t, entry, entered));
      assert Entered(t, entry, entered, instants, others, 0) == steps;
      Enter(t, priority.value, created, begun + timeout, entered);
      var acquired;
      acquired, n := Wait(t, start, entry, entered, begun + timeout, instants, checks, views, others);
      if acquired {
        failure, steps := None, Entered(t, entry, entered, instants, others, n) + [];
        assert steps == Entered(t, entry, entered, instants, others, n);
        return;
      }
      steps := Extend(start, Entered(t, entry, entered, instants, others, n), GiveUp(t));
      Withdraw(t);
      failure := Some(Busy);
    }

    method Withdraw(t: Ticket)
      requires Valid()
      modifies this`waiting, this`model
      ensures Valid() && model == Exec(old(model), GiveUp(t)) && t !in waiting && model.grants == old(model).grants
      ensures waiting == old(waiting) - {t}
    {
      ExecKeeps(model, GiveUp(t));
      model := Exec(model, GiveUp(t));
      waiting := waiting - {t};
    }

    method Leave(t: Ticket)
      requires Valid()
      modifies this
      ensures Valid() && model == Exec(old(model), Release(t)) && waiting == old(waiting)
      ensures holder == if old(holder) == Leased(t) then Free else old(holder)
    {
      ExecKeeps(model, Release(t));
      model := Exec(model, Release(t));
      if holder == Leased(t) {
        holder := Free;
      }
    }
  }
}
