/** The breaker object: the fields of the source's struct, updated step by step. Each
    method is one critical section (or the one unlocked load) and one step of `Breaker`. The
    object keeps its history, so that what is true of every run is true of the object. */
module CircuitBreakers {
  import opened Basics
  import opened Breaker

  class CircuitBreaker {
    const config: Config
    var state: State
    var started: Instant
    var successes: nat
    var failures: nat
    var openedAt: Option<Instant>
    var probes: nat
    var trips: nat
    var rejected: nat
    ghost const born: Instant
    ghost var steps: seq<Step>

    function Snapshot(): View
      reads this
    {
      View(state, started, successes, failures, openedAt, probes, trips, rejected)
    }

    /** Where the history leads: the callers between load and lock, and the latest clock reading. */
    ghost function History(): System
      reads this
    {
      Run(config, born, steps)
    }

    /** The fields are what the history of calls makes them. */
    ghost predicate Valid()
      reads this
    {
      Possible(config, born, steps) && Snapshot() == History().view
    }

    constructor (config: Config, now: Instant)
      ensures Valid() && this.config == config && born == now && steps == []
    {
      this.config := config;
      state, started := Closed, now;
      successes, failures, probes, trips, rejected := 0, 0, 0, 0, 0;
      openedAt := None;
      born, steps := now, [];
    }

    /** The unlocked half of `allow`. An answer without the lock is an admission, and no
        opening is then younger than the cooldown; otherwise the caller has yet to lock. */
    method LoadForAllow(ghost caller: nat, ghost now: Instant) returns (decided: Option<bool>)
      requires Valid() && Enabled(History(), Load(caller, now))
      modifies this`steps
      ensures Valid() && steps == old(steps) + [Load(caller, now)]
      ensures if Admits(config, born, steps, |old(steps)|) then decided == Some(true) else decided == None
      ensures decided.None? <==> caller in History().waiting
      ensures decided.Some? ==>
              forall j | 0 <= j < |old(steps)| && Opens(config, born, steps, j) :: now >= steps[j].at.open + config.cooldown
    {
      match state {
        case Closed => decided := Some(true);
        case HalfOpen => decided := Some(true);
        case Open => decided := None;
      }
      Extend(config, born, steps, Load(caller, now));
      steps := steps + [Load(caller, now)];
      CooldownKept(config, born, steps);
    }

    /** The locked half. A caller whose load saw Open is admitted exactly if the latest
        opening is a cooldown old, and then every earlier one is too. */
    method AllowUnderLock(ghost caller: nat, now: Instant) returns (admitted: bool)
      requires Valid() && Enabled(History(), Locked(caller, now))
      modifies this
      ensures Valid() && steps == old(steps) + [Locked(caller, now)]
      ensures openedAt.Some? && (admitted <==> now >= openedAt.value + config.cooldown)
      ensures state == if admitted then HalfOpen else old(state)
      ensures rejected == old(rejected) + if admitted then 0 else 1
      ensures admitted ==>
              forall j | 0 <= j < |old(steps)| && Opens(config, born, steps, j) :: now >= steps[j].at.open + config.cooldown
    {
      Extend(config, born, steps, Locked(caller, now));
      if openedAt.Some? && Elapsed(now, openedAt.value) >= config.cooldown {
        probes := 0;
        state := HalfOpen;
        admitted := true;
      } else {
        rejected := rejected + 1;
        admitted := false;
      }
      steps := steps + [Locked(caller, now)];
      LockedDecision(config, born, steps, |steps| - 1);
      CooldownKept(config, born, steps);
    }

    /** Closing takes a quorum of successes since half-open was entered, without a failure. */
    method RecordSuccess(at: Reads)
      requires Valid() && Enabled(History(), Success(at))
      modifies this
      ensures Valid() && steps == old(steps) + [Success(at)]
      ensures state != old(state) ==> old(state) == HalfOpen && state == Closed && successes == failures == 0
      ensures state != old(state) ==>
              exists e :: ProbingSince(config, born, steps, e) && SuccessesIn(steps[e + 1..]) == Quorum(config)
      ensures trips == old(trips) && openedAt == old(openedAt)
      ensures old(state) != HalfOpen ==>
              if at.check < old(started) + config.window
              then started == old(started) && successes == old(successes) + 1 && failures == old(failures)
              else started == at.reset && successes == 1 && failures == 0
    {
      ReachableSound(config, born, steps);
      WindowStep(config, History(), Success(at));
      Extend(config, born, steps, Success(at));
      if state == HalfOpen {
        probes := probes + 1;
        if probes >= config.probeSuccesses {
          ResetWindow(at.reset);
          state := Closed;
        }
      } else {
        RollIfStale(at.check, at.reset);
        successes := successes + 1;
      }
      assert Snapshot() == Breaker.RecordSuccess(config, old(Snapshot()), at);
      steps := steps + [Success(at)];
      assert Front(steps) == old(steps);
      if state != old(state) { ClosingJustified(config, born, steps); }
    }

    /** A failure trips the circuit exactly when it is recorded outside half-open and the
        outcomes of the current window warrant it. */
    method RecordFailure(at: Reads)
      requires Valid() && Enabled(History(), Failure(at))
      modifies this
      ensures Valid() && steps == old(steps) + [Failure(at)]
      ensures trips == old(trips) || trips == old(trips) + 1
      ensures trips > old(trips) <==> old(state) != HalfOpen && exists from :: WindowTrips(config, born, steps, from)
      ensures trips > old(trips) || old(state) == HalfOpen ==> state == Open && openedAt == Some(at.open)
      ensures trips == old(trips) && old(state) != HalfOpen ==> state == old(state) && openedAt == old(openedAt)
      ensures old(state) != HalfOpen ==>
              if at.check < old(started) + config.window
              then started == old(started) && successes == old(successes) && failures == old(failures) + 1
              else started == at.reset && successes == 0 && failures == 1
    {
      ReachableSound(config, born, steps);
      WindowStep(config, History(), Failure(at));
      Extend(config, born, steps, Failure(at));
      CountFailure(at);
      steps := steps + [Failure(at)];
      assert Front(steps) == old(steps);
      TripJustified(config, born, steps);
    }

    method CountFailure(at: Reads)
      modifies this`state, this`started, this`successes, this`failures, this`openedAt, this`probes, this`trips
      ensures Snapshot() == Breaker.RecordFailure(config, old(Snapshot()), at)
    {
      if state == HalfOpen {
        openedAt := Some(at.open);
        probes := 0;
        state := Open;
        return;
      }
      RollIfStale(at.check, at.reset);
      failures := failures + 1;
      var total := successes + failures;
      if total >= config.minimumRequests {
        var ratio := failures as real / total as real;
        if ratio >= config.failureRatio {
          openedAt := Some(at.open);
          state := Open;
          trips := trips + 1;
        }
      }
    }

    method RollIfStale(check: Instant, reset: Instant)
      modifies this`started, this`successes, this`failures
      ensures Snapshot() == Breaker.RollIfStale(config, old(Snapshot()), check, reset)
      ensures if config.window == 0 || check >= old(started) + config.window
              then started == reset && successes == failures == 0
              else started == old(started) && successes == old(successes) && failures == old(failures)
    {
      if Elapsed(check, started) >= config.window {
        ResetWindow(reset);
      }
    }

    method ResetWindow(at: Instant)
      modifies this`started, this`successes, this`failures
      ensures Snapshot() == Breaker.ResetWindow(old(Snapshot()), at)
    {
      started := at;
      successes := 0;
      failures := 0;
    }
  }

  /** If the last step of a run admits a call, every opening before it is a cooldown old. */
  lemma CooldownKept(config: Config, born: Instant, steps: seq<Step>)
    requires steps != [] && Possible(config, born, steps)
    ensures Admits(config, born, steps, |steps| - 1) ==>
            forall j | 0 <= j < |steps| - 1 && Opens(config, born, steps, j) :: Last(steps).now >= steps[j].at.open + config.cooldown
  {
    if Admits(config, born, steps, |steps| - 1) {
      forall j | 0 <= j < |steps| - 1 && Opens(config, born, steps, j)
        ensures Last(steps).now >= steps[j].at.open + config.cooldown
      {
        NoAdmissionDuringCooldown(config, born, steps, j, |steps| - 1);
      }
    }
  }
}
