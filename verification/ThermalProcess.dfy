/** The guard process as the code runs it: fields rewritten in place, the service asked as it goes along. */
module ThermalProcess {
  import opened Wrappers
  import opened ThermalGuard

  class GuardProcess {
    const limit: int
    var cooling: bool
    var owed: bool
    var incident: Option<nat>
    var pending: Option<Pending>
    var coolSince: Option<int>
    var file: Option<File>

    function State(): Guard
      reads this
    {
      Guard(cooling, owed, incident, pending, coolSince)
    }

    /** An invalid limit never becomes a guard: the code raises for it. */
    constructor (limit: int, file: Option<File>)
      requires ValidLimit(limit)
      ensures this.limit == limit && State() == Load(file) && this.file == file
    {
      this.limit, this.file := limit, file;
      var saved := Load(file);
      cooling, owed, incident, pending, coolSince := saved.cooling, saved.owed, saved.incident, saved.pending, None;
    }

    /** `step`: one sample, from the reading to the state file. */
    method Step(sample: Sample) returns (output: Output)
      modifies this
      ensures (State(), output) == StepOf(limit, old(State()), sample)
      ensures file == Some(output.file)
    {
      var temperature := Temperature(sample);
      var transition: Option<Transition> := None;
      var stopConfirmed: Option<bool> := None;
      var commands := [];
      if temperature.None? || temperature.value >= limit {
        if !cooling {
          incident := Some(sample.newIncident);
          transition := Some(Trip);
        }
        cooling := true;
        coolSince := None;
        commands := [Ask];
        if sample.service.active {
          commands := [Ask, Stop];
          var confirmed := sample.service.stops;
          if confirmed {
            commands := [Ask, Stop, Ask];
            confirmed := !sample.service.activeAfterStop;
          }
          stopConfirmed := Some(confirmed);
          owed := owed || confirmed;
        }
      } else if cooling {
        if temperature.value <= limit - HYSTERESIS {
          if coolSince.None? {
            coolSince := Some(sample.coolNow);
          }
          if sample.coolNow - coolSince.value >= DWELL {
            var restored := true;
            if owed {
              commands := [Start];
              restored := sample.service.starts;
              if restored {
                commands := [Start, Ask];
                restored := sample.service.activeAfterStart;
              }
            }
            if restored {
              cooling := false;
              owed := false;
              transition := Some(Recovery);
            }
          }
        } else {
          coolSince := None;
        }
      }
      if transition.Some? {
        pending := Some(Pending(transition.value, incident, temperature, stopConfirmed));
      }
      var data := File(cooling, sample.now, temperature, limit, owed, incident, stopConfirmed, pending);
      file := Some(data);
      output := Output(data, transition, commands);
    }

    /** `notify`, then forgetting what was pending; if it fails, it stays pending. */
    method HandOver(delivered: bool)
      modifies this`pending
      ensures State() == ThermalGuard.HandOver(old(State()), delivered)
    {
      if pending.Some? && delivered {
        pending := None;
      }
    }

    /** A stretch of the main loop: it continues the trace the theorems are about. */
    method Serve(samples: seq<Sample>, delivered: seq<bool>, ghost start: Option<File>, ghost past: seq<Event>)
      returns (ghost history: seq<Event>)
      requires |delivered| == |samples|
      requires Run(limit, start, past).guard == State() && Run(limit, start, past).file == file
      modifies this
      ensures |history| == |past| + |samples| && history[..|past|] == past
      ensures forall k | 0 <= k < |samples| :: history[|past| + k] == Take(samples[k], delivered[k])
      ensures Run(limit, start, history).guard == State() && Run(limit, start, history).file == file
    {
      history := past;
      for k := 0 to |samples|
        invariant |history| == |past| + k && history[..|past|] == past
        invariant forall j | 0 <= j < k :: history[|past| + j] == Take(samples[j], delivered[j])
        invariant Run(limit, start, history).guard == State() && Run(limit, start, history).file == file
      {
        var output := Step(samples[k]);
        HandOver(delivered[k]);
        assert (history + [Take(samples[k], delivered[k])])[..|history|] == history;
        history := history + [Take(samples[k], delivered[k])];
      }
    }
  }
}
