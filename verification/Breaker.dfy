/** The circuit breaker as a timed state machine.

    `allow` reads the state outside the lock and acts on it inside, so it is two steps
    here, `Load` and `Locked`, between which any other step may happen. Every locked
    section reads the clock itself, possibly several times. */
module Breaker {
  import opened Basics

  datatype State = Closed | Open | HalfOpen

  datatype Config = Config(
    failureRatio: real,
    minimumRequests: nat,
    window: nat,
    cooldown: nat,
    probeSuccesses: nat)

  /** In milliseconds. */
  const DEFAULT := Config(0.5, 20, 10000, 5000, 3)

  datatype View = View(
    state: State,
    started: Instant,
    successes: nat,
    failures: nat,
    openedAt: Option<Instant>,
    probes: nat,
    trips: nat,
    rejected: nat)

  /** The clock readings of one `record_*` call, in program order: the staleness check,
      the start of a new window, the opening of the circuit. */
  datatype Reads = Reads(check: Instant, reset: Instant, open: Instant)

  function Fresh(now: Instant): View {
    View(Closed, now, 0, 0, None, 0, 0, 0)
  }

  function ResetWindow(v: View, at: Instant): View {
    v.(started := at, successes := 0, failures := 0)
  }

  function RollIfStale(cfg: Config, v: View, check: Instant, reset: Instant): View {
    if Elapsed(check, v.started) >= cfg.window then ResetWindow(v, reset) else v
  }

  predicate CooledDown(cfg: Config, v: View, now: Instant) {
    v.openedAt.Some? && Elapsed(now, v.openedAt.value) >= cfg.cooldown
  }

  /** The locked half of `allow`, entered only by a caller whose load saw Open. */
  function AllowLocked(cfg: Config, v: View, now: Instant): (r: (View, bool)) {
    if CooledDown(cfg, v, now)
    then (v.(probes := 0, state := HalfOpen), true)
    else (v.(rejected := v.rejected + 1), false)
  }

  function RecordSuccess(cfg: Config, v: View, at: Reads): View {
    if v.state == HalfOpen then
      if v.probes + 1 >= cfg.probeSuccesses
      then ResetWindow(v, at.reset).(probes := v.probes + 1, state := Closed)
      else v.(probes := v.probes + 1)
    else
      var w := RollIfStale(cfg, v, at.check, at.reset);
      w.(successes := w.successes + 1)
  }

  predicate Trips(cfg: Config, successes: nat, failures: nat) {
    var total := successes + failures;
    && total >= cfg.minimumRequests
    && total > 0
    && failures as real / total as real >= cfg.failureRatio
  }

  function RecordFailure(cfg: Config, v: View, at: Reads): View {
    if v.state == HalfOpen then
      v.(openedAt := Some(at.open), probes := 0, state := Open)
    else
      var rolled := RollIfStale(cfg, v, at.check, at.reset);
      var w := rolled.(failures := rolled.failures + 1);
      if Trips(cfg, w.successes, w.failures)
      then w.(openedAt := Some(at.open), state := Open, trips := w.trips + 1)
      else w
  }

  // ----- Runs -----

  datatype Step =
    | Load(caller: nat, now: Instant)
    | Locked(caller: nat, now: Instant)
    | Success(at: Reads)
    | Failure(at: Reads)

  /** `waiting` holds the callers whose load saw Open and who have not yet taken the lock. */
  datatype System = System(view: View, waiting: set<nat>, clock: Instant)

  predicate Enabled(s: System, step: Step) {
    match step
    case Load(c, now) => c !in s.waiting && s.clock <= now
    case Locked(c, now) => c in s.waiting && s.clock <= now
    case Success(at) => s.clock <= at.check <= at.reset <= at.open
    case Failure(at) => s.clock <= at.check <= at.reset <= at.open
  }

  function Next(cfg: Config, s: System, step: Step): System {
    match step
    case Load(c, now) =>
      System(s.view, if s.view.state == Open then s.waiting + {c} else s.waiting, now)
    case Locked(c, now) => System(AllowLocked(cfg, s.view, now).0, s.waiting - {c}, now)
    case Success(at) => System(RecordSuccess(cfg, s.view, at), s.waiting, at.open)
    case Failure(at) => System(RecordFailure(cfg, s.view, at), s.waiting, at.open)
  }

  function RunFrom(cfg: Config, s: System, steps: seq<Step>): System {
    if steps == [] then s else Next(cfg, RunFrom(cfg, s, Front(steps)), Last(steps))
  }

  predicate PossibleFrom(cfg: Config, s: System, steps: seq<Step>) {
    steps == [] ||
    (PossibleFrom(cfg, s, Front(steps)) && Enabled(RunFrom(cfg, s, Front(steps)), Last(steps)))
  }

  /** A breaker created at `born`. */
  function Initial(born: Instant): System {
    System(Fresh(born), {}, born)
  }

  function Run(cfg: Config, born: Instant, steps: seq<Step>): System {
    RunFrom(cfg, Initial(born), steps)
  }

  predicate Possible(cfg: Config, born: Instant, steps: seq<Step>) {
    PossibleFrom(cfg, Initial(born), steps)
  }

  function Before(cfg: Config, born: Instant, steps: seq<Step>, i: nat): View
    requires i < |steps|
  {
    Run(cfg, born, steps[..i]).view
  }

  function After(cfg: Config, born: Instant, steps: seq<Step>, i: nat): View
    requires i < |steps|
  {
    Run(cfg, born, steps[..i + 1]).view
  }

  lemma {:induction false} PrefixPossible(cfg: Config, born: Instant, steps: seq<Step>, i: nat)
    requires i <= |steps| && Possible(cfg, born, steps)
    ensures Possible(cfg, born, steps[..i])
  {
    if i == |steps| {
      assert steps[..i] == steps;
    } else {
      PrefixPossible(cfg, born, Front(steps), i);
      assert Front(steps)[..i] == steps[..i];
    }
  }

  lemma StepAt(cfg: Config, born: Instant, steps: seq<Step>, i: nat)
    requires i < |steps| && Possible(cfg, born, steps)
    ensures Possible(cfg, born, steps[..i])
    ensures Enabled(Run(cfg, born, steps[..i]), steps[i])
    ensures Run(cfg, born, steps[..i + 1]) == Next(cfg, Run(cfg, born, steps[..i]), steps[i])
  {
    PrefixPossible(cfg, born, steps, i + 1);
    assert Front(steps[..i + 1]) == steps[..i];
  }

  lemma Extend(cfg: Config, born: Instant, steps: seq<Step>, step: Step)
    requires Possible(cfg, born, steps) && Enabled(Run(cfg, born, steps), step)
    ensures Possible(cfg, born, steps + [step])
    ensures Run(cfg, born, steps + [step]) == Next(cfg, Run(cfg, born, steps), step)
    ensures Before(cfg, born, steps + [step], |steps|) == Run(cfg, born, steps).view
  {
    assert Front(steps + [step]) == steps == (steps + [step])[..|steps|];
  }

  // ----- What every reachable state satisfies -----

  function Quorum(cfg: Config): nat {
    if cfg.probeSuccesses == 0 then 1 else cfg.probeSuccesses
  }

  ghost predicate Sound(cfg: Config, s: System) {
    var v := s.view;
    && v.started <= s.clock
    && (v.openedAt.Some? ==> v.openedAt.value <= s.clock)
    && (v.state != Closed || s.waiting != {} ==> v.openedAt.Some?)
    && (v.openedAt.Some? && s.clock < v.openedAt.value + cfg.cooldown ==> v.state == Open)
    && (v.state == HalfOpen ==> v.probes < Quorum(cfg))
  }

  lemma {:induction false} ReachableSound(cfg: Config, born: Instant, steps: seq<Step>)
    requires Possible(cfg, born, steps)
    ensures Sound(cfg, Run(cfg, born, steps))
  {
    if steps != [] {
      ReachableSound(cfg, born, Front(steps));
    }
  }

  // ----- Cooldown -----

  predicate Opens(cfg: Config, born: Instant, steps: seq<Step>, j: nat)
    requires j < |steps|
  {
    && steps[j].Failure?
    && After(cfg, born, steps, j).state == Open
    && After(cfg, born, steps, j).openedAt == Some(steps[j].at.open)
  }

  /** Does step `i` make a call of `allow` answer true? */
  predicate Admits(cfg: Config, born: Instant, steps: seq<Step>, i: nat)
    requires i < |steps|
  {
    match steps[i]
    case Load(_, _) => Before(cfg, born, steps, i).state != Open
    case Locked(_, now) => AllowLocked(cfg, Before(cfg, born, steps, i), now).1
    case _ => false
  }

  lemma OpenedAtStep(cfg: Config, s: System, step: Step)
    requires Sound(cfg, s) && Enabled(s, step) && s.view.openedAt.Some?
    ensures Next(cfg, s, step).view.openedAt.Some?
    ensures s.view.openedAt.value <= Next(cfg, s, step).view.openedAt.value
  {
  }

  lemma {:induction false} OpenedAtOnlyGrows(cfg: Config, born: Instant, steps: seq<Step>, j: nat, i: nat)
    requires j <= i <= |steps| && Possible(cfg, born, steps)
    requires Run(cfg, born, steps[..j]).view.openedAt.Some?
    ensures Run(cfg, born, steps[..i]).view.openedAt.Some?
    ensures Run(cfg, born, steps[..j]).view.openedAt.value <= Run(cfg, born, steps[..i]).view.openedAt.value
  {
    if j < i {
      OpenedAtOnlyGrows(cfg, born, steps, j, i - 1);
      StepAt(cfg, born, steps, i - 1);
      ReachableSound(cfg, born, steps[..i - 1]);
      OpenedAtStep(cfg, Run(cfg, born, steps[..i - 1]), steps[i - 1]);
    }
  }

  /** Once the circuit has opened at time `u`, no call of `allow` in any interleaving is
      admitted before `u + cooldown`: not by the unlocked load, not by the locked section,
      and not by a caller whose load is older than the opening. */
  lemma NoAdmissionDuringCooldown(cfg: Config, born: Instant, steps: seq<Step>, j: nat, i: nat)
    requires j < i < |steps| && Possible(cfg, born, steps)
    requires Opens(cfg, born, steps, j) && Admits(cfg, born, steps, i)
    ensures steps[i].now >= steps[j].at.open + cfg.cooldown
  {
    OpenedAtOnlyGrows(cfg, born, steps, j + 1, i);
    StepAt(cfg, born, steps, i);
    ReachableSound(cfg, born, steps[..i]);
  }

  /** The load that saw Open always finds `opened_at` set when it takes the lock, and the
      locked section answers true exactly when the latest opening is a cooldown old. */
  lemma LockedDecision(cfg: Config, born: Instant, steps: seq<Step>, i: nat)
    requires i < |steps| && Possible(cfg, born, steps) && steps[i].Locked?
    ensures Before(cfg, born, steps, i).openedAt.Some?
    ensures Admits(cfg, born, steps, i) <==>
            steps[i].now >= Before(cfg, born, steps, i).openedAt.value + cfg.cooldown
    ensures After(cfg, born, steps, i).state ==
            if Admits(cfg, born, steps, i) then HalfOpen else Before(cfg, born, steps, i).state
  {
    StepAt(cfg, born, steps, i);
    ReachableSound(cfg, born, steps[..i]);
  }

  // ----- The window -----

  predicate CountedOutcome(cfg: Config, born: Instant, steps: seq<Step>, i: nat)
    requires i < |steps|
  {
    (steps[i].Success? || steps[i].Failure?) && Before(cfg, born, steps, i).state != HalfOpen
  }

  /** Outcomes of one kind recorded outside half-open at positions `from` and later. */
  function Tally(cfg: Config, born: Instant, steps: seq<Step>, from: nat, failures: bool): nat {
    if |steps| <= from then 0 else
    var counted := CountedOutcome(cfg, born, steps, |steps| - 1) && Last(steps).Failure? == failures;
    Tally(cfg, born, Front(steps), from, failures) + if counted then 1 else 0
  }

  /** Step `i` closes the circuit. */
  predicate Closes(cfg: Config, born: Instant, steps: seq<Step>, i: nat)
    requires i < |steps|
  {
    Before(cfg, born, steps, i).state == HalfOpen && After(cfg, born, steps, i).state == Closed
  }

  /** Why a window begins at position `from` and time `started`: with the breaker, with a
      closing, or with an outcome that found the window before it as old as its width. */
  ghost predicate Begins(cfg: Config, born: Instant, steps: seq<Step>, from: nat, started: Instant) {
    || (from == 0 && started == born)
    || (0 < from <= |steps| && Closes(cfg, born, steps, from - 1) && steps[from - 1].Success? &&
        started == steps[from - 1].at.reset)
    || (from < |steps| && CountedOutcome(cfg, born, steps, from) && started == steps[from].at.reset &&
        steps[from].at.check >= Before(cfg, born, steps, from).started + cfg.window)
  }

  /** The counters are the tallies of `steps[from..]`, and the window's start time separates
      it from everything recorded before. */
  ghost predicate IsSlice(cfg: Config, born: Instant, steps: seq<Step>, from: nat) {
    var v := Run(cfg, born, steps).view;
    && from <= |steps|
    && v.successes == Tally(cfg, born, steps, from, false)
    && v.failures == Tally(cfg, born, steps, from, true)
    && (forall i | from <= i < |steps| && CountedOutcome(cfg, born, steps, i) :: v.started <= steps[i].at.reset)
    && (forall i | 0 <= i < from && CountedOutcome(cfg, born, steps, i) :: steps[i].at.reset <= v.started)
  }

  /** Since the window began at `from`, the circuit has not closed, and no outcome has found
      the window as old as its width. */
  ghost predicate Unbroken(cfg: Config, born: Instant, steps: seq<Step>, from: nat, started: Instant) {
    && (forall i | from <= i < |steps| :: !Closes(cfg, born, steps, i))
    && (forall i | from <= i < |steps| && CountedOutcome(cfg, born, steps, i) ::
          steps[i].at.check < started + cfg.window || (i == from && started == steps[i].at.reset))
  }

  /** `steps[from..]` is the current window. */
  ghost predicate IsWindow(cfg: Config, born: Instant, steps: seq<Step>, from: nat) {
    var started := Run(cfg, born, steps).view.started;
    && IsSlice(cfg, born, steps, from)
    && Begins(cfg, born, steps, from, started)
    && Unbroken(cfg, born, steps, from, started)
  }

  lemma {:induction false} TimesBounded(cfg: Config, born: Instant, steps: seq<Step>, i: nat)
    requires i < |steps| && Possible(cfg, born, steps) && (steps[i].Success? || steps[i].Failure?)
    ensures steps[i].at.reset <= Run(cfg, born, steps).clock
  {
    if i < |steps| - 1 {
      TimesBounded(cfg, born, Front(steps), i);
    }
  }

  lemma FrontAgrees(cfg: Config, born: Instant, steps: seq<Step>, i: nat)
    requires 0 < |steps| && i < |steps| - 1
    ensures Before(cfg, born, Front(steps), i) == Before(cfg, born, steps, i)
    ensures After(cfg, born, Front(steps), i) == After(cfg, born, steps, i)
    ensures Front(steps)[i] == steps[i]
  {
    assert Front(steps)[..i] == steps[..i];
    assert Front(steps)[..i + 1] == steps[..i + 1];
  }

  lemma EmptyTally(cfg: Config, born: Instant, steps: seq<Step>, failures: bool)
    ensures Tally(cfg, born, steps, |steps|, failures) == 0
  {
  }

  /** What one step does to the window: a closing empties it, an outcome outside half-open
      that finds it as old as its width starts it again with itself, an earlier one is added
      to it, and nothing else touches it. */
  lemma WindowStep(cfg: Config, s: System, step: Step)
    requires Sound(cfg, s) && Enabled(s, step)
    ensures var v, w := s.view, Next(cfg, s, step).view;
            var good, bad := if step.Success? then 1 else 0, if step.Failure? then 1 else 0;
            if v.state == HalfOpen && w.state == Closed then
              step.Success? && w.started == step.at.reset && w.successes == w.failures == 0
            else if v.state == HalfOpen || good + bad == 0 then
              w.started == v.started && w.successes == v.successes && w.failures == v.failures
            else if step.at.check >= v.started + cfg.window then
              w.started == step.at.reset && w.successes == good && w.failures == bad
            else
              w.started == v.started && w.successes == v.successes + good && w.failures == v.failures + bad
  {
  }

  lemma ExtendSlice(cfg: Config, born: Instant, steps: seq<Step>, from: nat)
    requires steps != [] && Possible(cfg, born, steps)
    requires IsSlice(cfg, born, Front(steps), from)
    requires Run(cfg, born, steps).view.started == Run(cfg, born, Front(steps)).view.started
    requires var v, w := Run(cfg, born, Front(steps)).view, Run(cfg, born, steps).view;
             var counted := CountedOutcome(cfg, born, steps, |steps| - 1);
             && w.successes == v.successes + (if counted && Last(steps).Success? then 1 else 0)
             && w.failures == v.failures + (if counted && Last(steps).Failure? then 1 else 0)
    ensures IsSlice(cfg, born, steps, from)
  {
    ReachableSound(cfg, born, Front(steps));
    forall i | 0 <= i < |steps| && CountedOutcome(cfg, born, steps, i)
      ensures if from <= i then Run(cfg, born, steps).view.started <= steps[i].at.reset
              else steps[i].at.reset <= Run(cfg, born, steps).view.started
    {
      if i < |steps| - 1 { FrontAgrees(cfg, born, steps, i); }
    }
  }

  lemma RestartSlice(cfg: Config, born: Instant, steps: seq<Step>, from: nat)
    requires steps != [] && Possible(cfg, born, steps) && |steps| - 1 <= from <= |steps|
    requires Last(steps).Success? || Last(steps).Failure?
    requires var w := Run(cfg, born, steps).view;
             && w.started == Last(steps).at.reset
             && w.successes == Tally(cfg, born, steps, from, false)
             && w.failures == Tally(cfg, born, steps, from, true)
    ensures IsSlice(cfg, born, steps, from)
  {
    forall i | 0 <= i < from && CountedOutcome(cfg, born, steps, i)
      ensures steps[i].at.reset <= Run(cfg, born, steps).view.started
    {
      if i < |steps| - 1 {
        FrontAgrees(cfg, born, steps, i);
        TimesBounded(cfg, born, Front(steps), i);
      }
    }
  }

  lemma ExtendBegins(cfg: Config, born: Instant, steps: seq<Step>, from: nat, started: Instant)
    requires steps != [] && from < |steps| && Begins(cfg, born, Front(steps), from, started)
    ensures Begins(cfg, born, steps, from, started)
  {
    if 0 < from { FrontAgrees(cfg, born, steps, from - 1); }
    if from < |steps| - 1 { FrontAgrees(cfg, born, steps, from); }
  }

  lemma ExtendUnbroken(cfg: Config, born: Instant, steps: seq<Step>, from: nat, started: Instant)
    requires steps != [] && from < |steps| && Unbroken(cfg, born, Front(steps), from, started)
    requires !Closes(cfg, born, steps, |steps| - 1)
    requires CountedOutcome(cfg, born, steps, |steps| - 1) ==> Last(steps).at.check < started + cfg.window
    ensures Unbroken(cfg, born, steps, from, started)
  {
    forall i | from <= i < |steps|
      ensures !Closes(cfg, born, steps, i)
      ensures CountedOutcome(cfg, born, steps, i) ==>
              steps[i].at.check < started + cfg.window || (i == from && started == steps[i].at.reset)
    {
      if i < |steps| - 1 {
        FrontAgrees(cfg, born, steps, i);
        assert !Closes(cfg, born, Front(steps), i);
      }
    }
  }

  lemma NextWindow(cfg: Config, born: Instant, steps: seq<Step>, from: nat)
    requires steps != [] && Possible(cfg, born, steps) && IsWindow(cfg, born, Front(steps), from)
    ensures var n := |steps|;
            if Closes(cfg, born, steps, n - 1) then IsWindow(cfg, born, steps, n)
            else if CountedOutcome(cfg, born, steps, n - 1) &&
                    Last(steps).at.check >= Run(cfg, born, Front(steps)).view.started + cfg.window
            then IsWindow(cfg, born, steps, n - 1)
            else IsWindow(cfg, born, steps, from)
  {
    var n, started := |steps|, Run(cfg, born, Front(steps)).view.started;
    assert steps[..n] == steps && steps[..n - 1] == Front(steps);
    ReachableSound(cfg, born, Front(steps));
    WindowStep(cfg, Run(cfg, born, Front(steps)), Last(steps));
    EmptyTally(cfg, born, Front(steps), false);
    EmptyTally(cfg, born, Front(steps), true);
    if Closes(cfg, born, steps, n - 1) {
      RestartSlice(cfg, born, steps, n);
    } else if CountedOutcome(cfg, born, steps, n - 1) && Last(steps).at.check >= started + cfg.window {
      RestartSlice(cfg, born, steps, n - 1);
    } else {
      ExtendSlice(cfg, born, steps, from);
      ExtendBegins(cfg, born, steps, from, started);
      ExtendUnbroken(cfg, born, steps, from, started);
    }
  }

  /** In every run the counters are the tallies of one suffix of the outcome history, which
      began for a reason and has not been broken since. */
  lemma {:induction false} WindowIsSlice(cfg: Config, born: Instant, steps: seq<Step>)
    requires Possible(cfg, born, steps)
    ensures exists from :: IsWindow(cfg, born, steps, from)
  {
    if steps == [] {
      assert IsWindow(cfg, born, steps, 0);
    } else {
      WindowIsSlice(cfg, born, Front(steps));
      var from :| IsWindow(cfg, born, Front(steps), from);
      NextWindow(cfg, born, steps, from);
    }
  }

  /** From step `a` on the circuit does not close, and every outcome that counts falls within
      the width of the window that is current at `a`. */
  ghost predicate WithinWidth(cfg: Config, born: Instant, steps: seq<Step>, a: nat) {
    && a <= |steps|
    && (forall i | a <= i < |steps| :: !Closes(cfg, born, steps, i))
    && (forall i | a <= i < |steps| && CountedOutcome(cfg, born, steps, i) ::
          steps[i].at.check < Run(cfg, born, steps[..a]).view.started + cfg.window)
  }

  lemma WithinWidthFront(cfg: Config, born: Instant, steps: seq<Step>, a: nat)
    requires a < |steps| && WithinWidth(cfg, born, steps, a)
    ensures WithinWidth(cfg, born, Front(steps), a) && Front(steps)[..a] == steps[..a]
  {
    assert Front(steps)[..a] == steps[..a];
    forall i | a <= i < |steps| - 1
      ensures Closes(cfg, born, steps, i) == Closes(cfg, born, Front(steps), i)
      ensures CountedOutcome(cfg, born, steps, i) == CountedOutcome(cfg, born, Front(steps), i)
    {
      FrontAgrees(cfg, born, steps, i);
    }
  }

  /** No outcome is forgotten within the width of its window. */
  lemma {:induction false} WindowLastsItsWidth(cfg: Config, born: Instant, steps: seq<Step>, a: nat)
    requires Possible(cfg, born, steps) && WithinWidth(cfg, born, steps, a)
    ensures var v, w := Run(cfg, born, steps[..a]).view, Run(cfg, born, steps).view;
            && w.started == v.started
            && w.successes == v.successes + Tally(cfg, born, steps, a, false)
            && w.failures == v.failures + Tally(cfg, born, steps, a, true)
  {
    if a == |steps| {
      assert steps[..a] == steps;
    } else {
      WithinWidthFront(cfg, born, steps, a);
      WindowLastsItsWidth(cfg, born, Front(steps), a);
      ReachableSound(cfg, born, Front(steps));
      WindowStep(cfg, Run(cfg, born, Front(steps)), Last(steps));
      assert steps[..|steps|] == steps && steps[..|steps| - 1] == Front(steps);
      assert !Closes(cfg, born, steps, |steps| - 1);
    }
  }

  /** So many outcomes, with so many failures among them, are enough to open the circuit. */
  predicate Warrants(cfg: Config, successes: nat, failures: nat) {
    && successes + failures >= cfg.minimumRequests
    && failures as real >= cfg.failureRatio * (successes + failures) as real
  }

  lemma RatioAsProduct(cfg: Config, successes: nat, failures: nat)
    requires failures > 0
    ensures Trips(cfg, successes, failures) <==> Warrants(cfg, successes, failures)
  {
    var f, n, r := failures as real, (successes + failures) as real, cfg.failureRatio;
    assert f / n * n == f;
    if f / n >= r { assert f / n * n >= r * n; }
    if f >= r * n { assert f / n >= r; }
  }

  /** `steps[from..]` is the current window and its outcomes warrant opening the circuit. */
  ghost predicate WindowTrips(cfg: Config, born: Instant, steps: seq<Step>, from: nat) {
    && IsWindow(cfg, born, steps, from)
    && Warrants(cfg, Tally(cfg, born, steps, from, false), Tally(cfg, born, steps, from, true))
  }

  lemma FailureTripsByWindow(cfg: Config, born: Instant, steps: seq<Step>, from: nat)
    requires steps != [] && IsWindow(cfg, born, steps, from)
    requires Last(steps).Failure? && Run(cfg, born, Front(steps)).view.state != HalfOpen
    ensures WindowTrips(cfg, born, steps, from) <==>
            Run(cfg, born, steps).view.trips == Run(cfg, born, Front(steps)).view.trips + 1
  {
    var w := Run(cfg, born, steps).view;
    RatioAsProduct(cfg, w.successes, w.failures);
  }

  /** A step bumps `trips` exactly when it is a failure recorded outside half-open and the
      window it falls in holds enough outcomes with a large enough share of failures. */
  lemma TripJustified(cfg: Config, born: Instant, steps: seq<Step>)
    requires steps != [] && Possible(cfg, born, steps)
    ensures Run(cfg, born, steps).view.trips > Run(cfg, born, Front(steps)).view.trips <==>
            && Last(steps).Failure?
            && Run(cfg, born, Front(steps)).view.state != HalfOpen
            && exists from :: WindowTrips(cfg, born, steps, from)
  {
    if Last(steps).Failure? && Run(cfg, born, Front(steps)).view.state != HalfOpen {
      WindowIsSlice(cfg, born, steps);
      var from :| IsWindow(cfg, born, steps, from);
      FailureTripsByWindow(cfg, born, steps, from);
      forall other | WindowTrips(cfg, born, steps, other) {
        FailureTripsByWindow(cfg, born, steps, other);
      }
    }
  }

  lemma TripStep(cfg: Config, s: System, step: Step)
    requires step.Failure? && s.view.state != HalfOpen
    requires Warrants(cfg, Next(cfg, s, step).view.successes, Next(cfg, s, step).view.failures)
    ensures var w := Next(cfg, s, step).view;
            w.trips == s.view.trips + 1 && w.state == Open && w.openedAt == Some(step.at.open)
  {
    var w := Next(cfg, s, step).view;
    RatioAsProduct(cfg, w.successes, w.failures);
  }

  /** Enough outcomes within one width, with a large enough share of failures, always trip:
      a failure outside half-open opens the circuit when the outcomes counted since `a`,
      with those the window held then, warrant it. */
  lemma EnoughWithinWidthTrips(cfg: Config, born: Instant, steps: seq<Step>, a: nat)
    requires steps != [] && Possible(cfg, born, steps) && WithinWidth(cfg, born, steps, a)
    requires Last(steps).Failure? && Run(cfg, born, Front(steps)).view.state != HalfOpen
    requires var v := Run(cfg, born, steps[..a]).view;
             Warrants(cfg, v.successes + Tally(cfg, born, steps, a, false), v.failures + Tally(cfg, born, steps, a, true))
    ensures var w := Run(cfg, born, steps).view;
            && w.trips == Run(cfg, born, Front(steps)).view.trips + 1
            && w.state == Open && w.openedAt == Some(Last(steps).at.open)
  {
    WindowLastsItsWidth(cfg, born, steps, a);
    TripStep(cfg, Run(cfg, born, Front(steps)), Last(steps));
  }

  /** A trip opens the circuit, and its window is younger than the configured width or
      began with the tripping outcome itself. */
  lemma TripOpensOnFreshWindow(cfg: Config, born: Instant, steps: seq<Step>)
    requires steps != [] && Possible(cfg, born, steps)
    requires Run(cfg, born, steps).view.trips > Run(cfg, born, Front(steps)).view.trips
    ensures Last(steps).Failure? && Opens(cfg, born, steps, |steps| - 1)
    ensures var w, at := Run(cfg, born, steps).view, Last(steps).at;
            Elapsed(at.check, w.started) < cfg.window || w.started == at.reset
  {
    assert steps[..|steps|] == steps;
  }

  // ----- Closing -----

  function SuccessesIn(steps: seq<Step>): nat {
    if steps == [] then 0 else SuccessesIn(Front(steps)) + if Last(steps).Success? then 1 else 0
  }

  predicate EntersHalfOpen(cfg: Config, born: Instant, steps: seq<Step>, e: nat)
    requires e < |steps|
  {
    steps[e].Locked? && Admits(cfg, born, steps, e)
  }

  /** Since entering half-open at step `e` there was no other entry and no failure. */
  ghost predicate ProbingSince(cfg: Config, born: Instant, steps: seq<Step>, e: nat) {
    && e < |steps|
    && EntersHalfOpen(cfg, born, steps, e)
    && (forall i | e < i < |steps| :: !steps[i].Failure? && !EntersHalfOpen(cfg, born, steps, i))
  }

  lemma ProbingExtends(cfg: Config, born: Instant, steps: seq<Step>, e: nat)
    requires steps != [] && ProbingSince(cfg, born, Front(steps), e)
    requires !Last(steps).Failure? && !EntersHalfOpen(cfg, born, steps, |steps| - 1)
    ensures ProbingSince(cfg, born, steps, e)
    ensures SuccessesIn(steps[e + 1..]) == SuccessesIn(Front(steps)[e + 1..]) + if Last(steps).Success? then 1 else 0
  {
    assert forall i | 0 <= i < |steps| - 1 :: Front(steps)[..i] == steps[..i];
    assert Front(steps[e + 1..]) == Front(steps)[e + 1..];
  }

  lemma {:induction false} HalfOpenCountsProbes(cfg: Config, born: Instant, steps: seq<Step>)
    requires Possible(cfg, born, steps)
    requires Run(cfg, born, steps).view.state == HalfOpen
    ensures exists e :: ProbingSince(cfg, born, steps, e) &&
              SuccessesIn(steps[e + 1..]) == Run(cfg, born, steps).view.probes
  {
    var n, v := |steps|, Run(cfg, born, Front(steps)).view;
    assert Front(steps) == steps[..n - 1];
    if Last(steps).Locked? && AllowLocked(cfg, v, Last(steps).now).1 {
      assert ProbingSince(cfg, born, steps, n - 1);
      assert SuccessesIn(steps[n..]) == 0;
    } else {
      HalfOpenCountsProbes(cfg, born, Front(steps));
      var e :| ProbingSince(cfg, born, Front(steps), e) && SuccessesIn(Front(steps)[e + 1..]) == v.probes;
      ProbingExtends(cfg, born, steps, e);
    }
  }

  lemma ClosingStep(cfg: Config, s: System, step: Step)
    requires s.view.state == HalfOpen && Next(cfg, s, step).view.state == Closed
    ensures step.Success? && s.view.probes + 1 >= cfg.probeSuccesses
    ensures Next(cfg, s, step).view.successes == Next(cfg, s, step).view.failures == 0
  {
  }

  /** The circuit leaves half-open for closed only on the quorum-th success since it last
      entered half-open, with no failure in between, and the new window is empty. */
  lemma ClosingJustified(cfg: Config, born: Instant, steps: seq<Step>)
    requires steps != [] && Possible(cfg, born, steps)
    requires Run(cfg, born, Front(steps)).view.state == HalfOpen
    requires Run(cfg, born, steps).view.state == Closed
    ensures exists e :: ProbingSince(cfg, born, steps, e) && SuccessesIn(steps[e + 1..]) == Quorum(cfg)
    ensures Run(cfg, born, steps).view.successes == Run(cfg, born, steps).view.failures == 0
  {
    ReachableSound(cfg, born, Front(steps));
    HalfOpenCountsProbes(cfg, born, Front(steps));
    var v := Run(cfg, born, Front(steps)).view;
    ClosingStep(cfg, Run(cfg, born, Front(steps)), Last(steps));
    var e :| ProbingSince(cfg, born, Front(steps), e) && SuccessesIn(Front(steps)[e + 1..]) == v.probes;
    ProbingExtends(cfg, born, steps, e);
  }

  function Successes(n: nat, now: Instant): seq<Step> {
    seq(n, _ => Success(Reads(now, now, now)))
  }

  lemma {:induction false} ProbesAccumulate(cfg: Config, s: System, n: nat, now: Instant)
    requires s.view.state == HalfOpen && s.view.probes == 0 && s.clock <= now && n < Quorum(cfg)
    ensures PossibleFrom(cfg, s, Successes(n, now))
    ensures RunFrom(cfg, s, Successes(n, now)) == System(s.view.(probes := n), s.waiting, if n == 0 then s.clock else now)
  {
    if n > 0 {
      assert Front(Successes(n, now)) == Successes(n - 1, now);
      ProbesAccumulate(cfg, s, n - 1, now);
    }
  }

  lemma {:induction false} RunAppend(cfg: Config, s: System, a: seq<Step>, b: seq<Step>)
    ensures RunFrom(cfg, s, a + b) == RunFrom(cfg, RunFrom(cfg, s, a), b)
    ensures PossibleFrom(cfg, s, a) && PossibleFrom(cfg, RunFrom(cfg, s, a), b) ==> PossibleFrom(cfg, s, a + b)
  {
    if b == [] {
      assert a + b == a;
    } else {
      RunAppend(cfg, s, a, Front(b));
      assert Front(a + b) == a + Front(b);
    }
  }

  lemma CallReopens(cfg: Config, s: System, caller: nat, now: Instant)
    requires s.view.state == Open && caller !in s.waiting && s.clock <= now
    requires s.view.openedAt.Some? && s.view.openedAt.value + cfg.cooldown <= now
    ensures var call := [Load(caller, now), Locked(caller, now)];
            && PossibleFrom(cfg, s, call)
            && RunFrom(cfg, s, call) == System(s.view.(probes := 0, state := HalfOpen), s.waiting, now)
  {
    var call, load := [Load(caller, now), Locked(caller, now)], [Load(caller, now)];
    assert Front(call) == load && Front(load) == [];
    assert RunFrom(cfg, s, []) == s && PossibleFrom(cfg, s, []);
    assert RunFrom(cfg, s, load) == Next(cfg, s, load[0]) && PossibleFrom(cfg, s, load);
  }

  /** From every reachable open circuit: wait out the cooldown, let one call through and
      record a quorum of successes, and the circuit is closed with an empty window. */
  lemma Recovers(cfg: Config, born: Instant, steps: seq<Step>, caller: nat, now: Instant)
    requires Possible(cfg, born, steps)
    requires var s := Run(cfg, born, steps);
             && s.view.state == Open && caller !in s.waiting
             && s.clock <= now
             && (s.view.openedAt.Some? ==> s.view.openedAt.value + cfg.cooldown <= now)
    ensures var rest := [Load(caller, now), Locked(caller, now)] + Successes(Quorum(cfg), now);
            && Possible(cfg, born, steps + rest)
            && Run(cfg, born, steps + rest).view.state == Closed
            && Run(cfg, born, steps + rest).view.successes == 0
            && Run(cfg, born, steps + rest).view.failures == 0
  {
    ReachableSound(cfg, born, steps);
    var s, q := Run(cfg, born, steps), Quorum(cfg);
    var call := [Load(caller, now), Locked(caller, now)];
    CallReopens(cfg, s, caller, now);
    var h := RunFrom(cfg, s, call);
    ProbesAccumulate(cfg, h, q - 1, now);
    assert Front(Successes(q, now)) == Successes(q - 1, now);
    RunAppend(cfg, s, call, Successes(q, now));
    RunAppend(cfg, Initial(born), steps, call + Successes(q, now));
  }

  // ----- Healthy traffic -----

  /** Without a recorded failure no configuration and no interleaving ever leaves Closed. */
  lemma {:induction false} NoFailureNoTrip(cfg: Config, born: Instant, steps: seq<Step>)
    requires Possible(cfg, born, steps)
    requires forall i | 0 <= i < |steps| :: !steps[i].Failure?
    ensures Run(cfg, born, steps).view.state == Closed
    ensures Run(cfg, born, steps).view.failures == Run(cfg, born, steps).view.trips == 0
    ensures Run(cfg, born, steps).waiting == {}
  {
    if steps != [] {
      NoFailureNoTrip(cfg, born, Front(steps));
    }
  }

  // ----- Which configurations can open at all -----

  /** A ratio no window can exceed never trips, and with a window of width zero every outcome
      starts a new window, so that more than one is never counted. */
  predicate CanOpen(cfg: Config) {
    cfg.failureRatio <= 1.0 && (cfg.minimumRequests <= 1 || cfg.window > 0)
  }

  /** How many failures in a row open a new circuit that can open. */
  function Threshold(cfg: Config): nat {
    if cfg.minimumRequests <= 1 then 1 else cfg.minimumRequests
  }

  function Failures(n: nat, now: Instant): seq<Step> {
    seq(n, _ => Failure(Reads(now, now, now)))
  }

  lemma ShareAtMostOne(failures: nat, total: nat)
    requires failures <= total && total > 0
    ensures failures as real / total as real <= 1.0
  {
  }

  lemma {:induction false} OtherwiseStaysClosed(cfg: Config, born: Instant, steps: seq<Step>)
    requires !CanOpen(cfg) && Possible(cfg, born, steps)
    ensures Run(cfg, born, steps).view.state == Closed
    ensures Run(cfg, born, steps).view.trips == 0 && Run(cfg, born, steps).waiting == {}
  {
    if steps != [] {
      OtherwiseStaysClosed(cfg, born, Front(steps));
      if Last(steps).Failure? {
        var w := RollIfStale(cfg, Run(cfg, born, Front(steps)).view, Last(steps).at.check, Last(steps).at.reset);
        ShareAtMostOne(w.failures + 1, w.successes + w.failures + 1);
      }
    }
  }

  lemma {:induction false} FailuresAccumulate(cfg: Config, born: Instant, n: nat, now: Instant)
    requires CanOpen(cfg) && born <= now && n < Threshold(cfg)
    ensures Possible(cfg, born, Failures(n, now))
    ensures var s := Run(cfg, born, Failures(n, now));
            && s.waiting == {} && s.clock == (if n == 0 then born else now)
            && s.view == Fresh(born).(failures := n, started := s.view.started)
            && (n > 0 ==> Elapsed(now, s.view.started) < cfg.window)
            && s.view.started <= now
  {
    if n > 0 {
      assert Front(Failures(n, now)) == Failures(n - 1, now);
      FailuresAccumulate(cfg, born, n - 1, now);
    }
  }

  lemma LastFailureOpens(cfg: Config, v: View, now: Instant)
    requires CanOpen(cfg) && v.state == Closed && v.successes == 0 && v.failures + 1 == Threshold(cfg)
    requires v.failures > 0 ==> Elapsed(now, v.started) < cfg.window
    ensures var w := RecordFailure(cfg, v, Reads(now, now, now));
            w.state == Open && w.openedAt == Some(now) && w.trips == v.trips + 1
  {
    var n := Threshold(cfg) as real;
    assert n / n == 1.0;
  }

  /** Enough failures open a new circuit, at any instant and under every configuration that
      can open. */
  lemma EnoughFailuresOpen(cfg: Config, born: Instant, now: Instant)
    requires CanOpen(cfg) && born <= now
    ensures Possible(cfg, born, Failures(Threshold(cfg), now))
    ensures var s := Run(cfg, born, Failures(Threshold(cfg), now));
            s.view.state == Open && s.view.openedAt == Some(now) && s.view.trips == 1 && s.waiting == {} && s.clock == now
  {
    var n := Threshold(cfg);
    FailuresAccumulate(cfg, born, n - 1, now);
    assert Front(Failures(n, now)) == Failures(n - 1, now);
    LastFailureOpens(cfg, Run(cfg, born, Failures(n - 1, now)).view, now);
  }

  /** The way back to half-open: wait out the cooldown and call once. */
  function Reopening(cfg: Config, born: Instant): seq<Step> {
    Failures(Threshold(cfg), born) + [Load(0, born + cfg.cooldown), Locked(0, born + cfg.cooldown)]
  }

  lemma ReopeningWorks(cfg: Config, born: Instant)
    requires CanOpen(cfg)
    ensures Possible(cfg, born, Reopening(cfg, born))
    ensures Run(cfg, born, Reopening(cfg, born)).view.state == HalfOpen
    ensures Run(cfg, born, Reopening(cfg, born)).waiting == {}
  {
    EnoughFailuresOpen(cfg, born, born);
    var opening, now := Failures(Threshold(cfg), born), born + cfg.cooldown;
    CallReopens(cfg, Run(cfg, born, opening), 0, now);
    RunAppend(cfg, Initial(born), opening, [Load(0, now), Locked(0, now)]);
  }

  ghost predicate Reaches(cfg: Config, state: State) {
    exists born, steps :: Possible(cfg, born, steps) && Run(cfg, born, steps).view.state == state
  }

  /** Exactly the configurations of `CanOpen` have a run that opens the circuit, and exactly
      they have one that reaches half-open. */
  lemma OpensExactly(cfg: Config)
    ensures Reaches(cfg, Open) <==> CanOpen(cfg)
    ensures Reaches(cfg, HalfOpen) <==> CanOpen(cfg)
  {
    if CanOpen(cfg) {
      EnoughFailuresOpen(cfg, 0, 0);
      ReopeningWorks(cfg, 0);
    } else {
      forall born, steps | Possible(cfg, born, steps) ensures Run(cfg, born, steps).view.state == Closed {
        OtherwiseStaysClosed(cfg, born, steps);
      }
    }
  }

  // ----- Which configurations every failure trips -----

  predicate Touchy(cfg: Config) {
    cfg.minimumRequests <= 1 && (cfg.failureRatio <= 0.0 || (cfg.window == 0 && cfg.failureRatio <= 1.0))
  }

  lemma TouchyStep(cfg: Config, v: View, at: Reads)
    requires Touchy(cfg) && v.state != HalfOpen
    requires Elapsed(at.check, v.started) < cfg.window ==> cfg.failureRatio <= 0.0
    ensures RecordFailure(cfg, v, at).trips == v.trips + 1
  {
    var w := RollIfStale(cfg, v, at.check, at.reset);
    assert (w.failures + 1) as real / (w.successes + w.failures + 1) as real >= 0.0;
    assert 1.0 / 1.0 == 1.0;
  }

  lemma {:induction false} FirstFailureTrips(cfg: Config, born: Instant, steps: seq<Step>)
    requires Touchy(cfg) && Possible(cfg, born, steps)
    ensures Run(cfg, born, steps).view.trips > 0 <==> exists i :: 0 <= i < |steps| && steps[i].Failure?
  {
    if forall i | 0 <= i < |steps| :: !steps[i].Failure? {
      NoFailureNoTrip(cfg, born, steps);
    } else {
      var front, last := Front(steps), Last(steps);
      FirstFailureTrips(cfg, born, front);
      if forall i | 0 <= i < |front| :: !front[i].Failure? {
        NoFailureNoTrip(cfg, born, front);
        assert last.Failure?;
        TouchyStep(cfg, Run(cfg, born, front).view, last.at);
      }
    }
  }

  /** Successes enough to hide one failure. */
  function Dilution(cfg: Config): nat {
    if cfg.minimumRequests <= 1 && cfg.window > 0 && cfg.failureRatio > 0.0 then (1.0 / cfg.failureRatio).Floor else 0
  }

  function Diluted(n: nat): seq<Step> {
    Successes(n, 0) + [Failure(Reads(0, 0, 0))]
  }

  lemma {:induction false} SuccessesAccumulate(cfg: Config, n: nat)
    requires n > 0 ==> cfg.window > 0
    ensures Possible(cfg, 0, Successes(n, 0))
    ensures Run(cfg, 0, Successes(n, 0)) == System(Fresh(0).(successes := n), {}, 0)
  {
    if n > 0 {
      assert Front(Successes(n, 0)) == Successes(n - 1, 0);
      SuccessesAccumulate(cfg, n - 1);
    }
  }

  lemma Scaled(a: real, b: real, c: real)
    requires c > 0.0
    ensures a < b ==> a * c < b * c
    ensures a <= b ==> a * c <= b * c
  {
  }

  lemma SmallShare(r: real, n: nat)
    requires r > 0.0 && n == (1.0 / r).Floor
    ensures 1.0 / (n + 1) as real < r
  {
    var m, q := (n + 1) as real, 1.0 / (n + 1) as real;
    assert q * m == 1.0 && 1.0 / r * r == 1.0;
    Scaled(1.0 / r, m, r);
    Scaled(r, q, m);
    assert m * r == r * m;
  }

  /** Under every other configuration some run with a failure does not trip. */
  lemma DilutedDoesNotTrip(cfg: Config)
    requires !Touchy(cfg)
    ensures Possible(cfg, 0, Diluted(Dilution(cfg)))
    ensures Run(cfg, 0, Diluted(Dilution(cfg))).view.trips == 0
  {
    var n := Dilution(cfg);
    SuccessesAccumulate(cfg, n);
    assert Front(Diluted(n)) == Successes(n, 0);
    if cfg.minimumRequests <= 1 && cfg.window > 0 {
      SmallShare(cfg.failureRatio, n);
    } else {
      assert 1.0 / 1.0 == 1.0;
    }
  }

  // ----- Half-open does not limit the calls it lets through -----

  function Calls(callers: seq<nat>, now: Instant): seq<Step> {
    seq(|callers|, i requires 0 <= i < |callers| => Load(callers[i], now))
  }

  /** How many calls the present half-open phase has let through; zero outside one. */
  function LetThrough(cfg: Config, born: Instant, steps: seq<Step>): nat {
    if steps == [] || Run(cfg, born, steps).view.state != HalfOpen then 0
    else LetThrough(cfg, born, Front(steps)) + if Admits(cfg, born, steps, |steps| - 1) then 1 else 0
  }

  lemma OneMoreCall(cfg: Config, born: Instant, steps: seq<Step>, caller: nat, now: Instant)
    requires Possible(cfg, born, steps) && Run(cfg, born, steps).view.state == HalfOpen
    requires Run(cfg, born, steps).clock <= now && caller !in Run(cfg, born, steps).waiting
    ensures var all := steps + [Load(caller, now)];
            && Possible(cfg, born, all) && Admits(cfg, born, all, |steps|)
            && Run(cfg, born, all) == Run(cfg, born, steps).(clock := now)
            && LetThrough(cfg, born, all) == LetThrough(cfg, born, steps) + 1
  {
    assert Front(steps + [Load(caller, now)]) == steps;
  }

  /** From every reachable half-open state and for any callers, however many, each call is
      admitted, and the circuit is as it was. */
  lemma {:induction false} HalfOpenAdmitsAll(cfg: Config, born: Instant, steps: seq<Step>, callers: seq<nat>, now: Instant)
    requires Possible(cfg, born, steps) && Run(cfg, born, steps).view.state == HalfOpen
    requires Run(cfg, born, steps).clock <= now
    requires forall i | 0 <= i < |callers| :: callers[i] !in Run(cfg, born, steps).waiting
    ensures var all := steps + Calls(callers, now);
            && Possible(cfg, born, all)
            && (forall i | |steps| <= i < |all| :: Admits(cfg, born, all, i))
            && Run(cfg, born, all) == Run(cfg, born, steps).(clock := Run(cfg, born, all).clock)
            && Run(cfg, born, all).clock <= now
            && LetThrough(cfg, born, all) == LetThrough(cfg, born, steps) + |callers|
  {
    if callers == [] {
      assert steps + Calls(callers, now) == steps;
    } else {
      HalfOpenAdmitsAll(cfg, born, steps, Front(callers), now);
      var before, all := steps + Calls(Front(callers), now), steps + Calls(callers, now);
      assert all == before + [Load(Last(callers), now)];
      OneMoreCall(cfg, born, before, Last(callers), now);
      forall i | |steps| <= i < |all| ensures Admits(cfg, born, all, i) {
        if i < |before| {
          assert Admits(cfg, born, before, i);
          assert all[..i] == before[..i];
        }
      }
    }
  }

  ghost predicate Limited(cfg: Config, limit: nat) {
    forall born, steps | Possible(cfg, born, steps) :: LetThrough(cfg, born, steps) <= limit
  }

  /** Half-open is said to let a limited number of calls through. A configuration has such a
      limit exactly when it can never open, so that half-open never occurs. */
  lemma HalfOpenLimitedExactly(cfg: Config)
    ensures (exists limit :: Limited(cfg, limit)) <==> !CanOpen(cfg)
  {
    if CanOpen(cfg) {
      forall limit: nat ensures !Limited(cfg, limit) {
        ReopeningWorks(cfg, 0);
        var steps, callers := Reopening(cfg, 0), seq(limit + 1, _ => 0);
        HalfOpenAdmitsAll(cfg, 0, steps, callers, Run(cfg, 0, steps).clock);
        assert LetThrough(cfg, 0, steps + Calls(callers, Run(cfg, 0, steps).clock)) > limit;
      }
    } else {
      forall born, steps | Possible(cfg, born, steps) ensures LetThrough(cfg, born, steps) <= 0 {
        OtherwiseStaysClosed(cfg, born, steps);
      }
      assert Limited(cfg, 0);
    }
  }
}
