/** Shutdown: the queue closes, the workers drain what was accepted, and all can be joined. */
module PoolDrain {
  import opened Basics
  import opened HandleCache
  import opened PoolProtocol
  import opened PoolRuns

  function Weight(t: Thread): nat {
    match t
    case Exited => 0
    case Idle => 1
    case Replying(_, _, _) => 2
    case Busy(_, _) => 3
  }

  function Weights(threads: seq<Thread>): nat {
    if threads == [] then 0 else Weights(Front(threads)) + Weight(Last(threads))
  }

  /** An upper bound on the worker steps still to come once the queue is closed. */
  function Remaining(s: Pool): nat {
    4 * |s.queue| + Weights(s.threads)
  }

  lemma {:induction false} WeightUpdate(threads: seq<Thread>, w: nat, t: Thread)
    requires w < |threads|
    ensures Weights(threads[w := t]) + Weight(threads[w]) == Weights(threads) + Weight(t)
  {
    var u := threads[w := t];
    if w < |threads| - 1 {
      WeightUpdate(Front(threads), w, t);
      assert Front(u) == Front(threads)[w := t];
    } else {
      assert Front(u) == Front(threads);
    }
  }

  /** Once closed, a pool stays closed, takes no new job, and every step but the clock's
      brings it closer to the end. */
  lemma DrainStep(cfg: Config, token: Token, s: Pool, step: Step)
    requires Shaped(cfg, s) && Enabled(cfg, s, step)
    requires !s.open && s.submitting == {} && forall id | id in s.callers :: !s.callers[id].Waiting?
    ensures var s' := Next(cfg, token, s, step);
            && !s'.open
            && s'.requests == s.requests
            && s'.callers == s.callers
            && Remaining(s') + One(!step.Tick?) <= Remaining(s)
  {
    if MovesThread(step) {
      WeightUpdate(s.threads, step.w, Next(cfg, token, s, step).threads[step.w]);
    }
  }

  /** No worker ever blocks another: after the close, each one that has not exited has an
      enabled step of its own. */
  lemma EveryWorkerCanMove(cfg: Config, s: Pool, w: nat, env: Env)
    requires w < |s.threads| && !s.open && !s.threads[w].Exited?
    ensures Enabled(cfg, s, Take(w)) || Enabled(cfg, s, Finish(w, env)) || Enabled(cfg, s, Reply(w)) || Enabled(cfg, s, Exit(w))
  {
  }

  /** Nothing but work keeps anyone waiting, open or closed: a counted job can be offered, an
      idle worker can take the oldest queued job, a busy one can finish it and then reply, and
      a caller whose time is up can stop waiting. */
  lemma NobodyIsStuck(cfg: Config, s: Pool, w: nat, id: JobId, env: Env)
    ensures id in s.submitting ==> Enabled(cfg, s, TrySend(id))
    ensures IsWaiting(s, id) && s.clock >= s.callers[id].since + cfg.timeout ==> Enabled(cfg, s, TimeOut(id))
    ensures w < |s.threads| && s.threads[w].Idle? && s.queue != [] ==> Enabled(cfg, s, Take(w))
    ensures w < |s.threads| && s.threads[w].Busy? ==> Enabled(cfg, s, Finish(w, env))
    ensures w < |s.threads| && s.threads[w].Replying? ==> Enabled(cfg, s, Reply(w))
  {
  }

  function WorkSteps(steps: seq<Step>): nat {
    if steps == [] then 0 else WorkSteps(Front(steps)) + One(!Last(steps).Tick?)
  }

  lemma DrainRunStep(r: Run, i: nat)
    requires IsRun(r) && i < |r.steps| && !r.states[i].open
    ensures var s, s' := r.states[i], r.states[i + 1];
            && !s'.open && s'.requests == s.requests && s'.callers == s.callers
            && Remaining(s') + One(!r.steps[i].Tick?) <= Remaining(s)
  {
    assert Lively(r.cfg, r.states[i]) by { ReachableInv(r, i); }
    assert IsStep(r.cfg, r.token, r.states[i], r.steps[i], r.states[i + 1]);
    DrainStep(r.cfg, r.token, r.states[i], r.steps[i]);
  }

  ghost predicate ClosedLike(s: Pool, s': Pool) {
    !s'.open && s'.requests == s.requests && s'.callers == s.callers
  }

  lemma {:induction false} ClosedStays(r: Run, n: nat, m: nat)
    requires IsRun(r) && n <= m < |r.states| && !r.states[n].open
    ensures ClosedLike(r.states[n], r.states[m])
    decreases m - n
  {
    if n < m {
      DrainRunStep(r, n);
      ClosedStays(r, n + 1, m);
    }
  }

  lemma DrainMeasure(r: Run, n: nat, i: nat)
    requires IsRun(r) && n <= i < |r.steps| && !r.states[n].open
    ensures Remaining(r.states[i + 1]) + One(!r.steps[i].Tick?) <= Remaining(r.states[i])
  {
    ClosedStays(r, n, i);
    DrainRunStep(r, i);
  }

  lemma OneMoreStep(steps: seq<Step>, n: nat, m: nat)
    requires n < m <= |steps|
    ensures WorkSteps(steps[n..m]) == WorkSteps(steps[n..m - 1]) + One(!steps[m - 1].Tick?)
  {
    assert Front(steps[n..m]) == steps[n..m - 1];
  }

  lemma {:induction false} Descends(steps: seq<Step>, left: seq<nat>, n: nat, m: nat)
    requires n <= m <= |steps| && |left| == |steps| + 1
    requires forall i | n <= i < m :: left[i + 1] + One(!steps[i].Tick?) <= left[i]
    ensures WorkSteps(steps[n..m]) + left[m] <= left[n]
  {
    if n < m {
      Descends(steps, left, n, m - 1);
      OneMoreStep(steps, n, m);
    }
  }

  /** However the workers are scheduled after the close, they take at most `Remaining` steps. */
  lemma DrainTerminates(r: Run, n: nat, m: nat)
    requires IsRun(r) && n <= m < |r.states| && !r.states[n].open
    ensures !r.states[m].open
    ensures r.states[m].requests == r.states[n].requests && r.states[m].callers == r.states[n].callers
    ensures WorkSteps(r.steps[n..m]) + Remaining(r.states[m]) <= Remaining(r.states[n])
  {
    ClosedStays(r, n, m);
    var left := seq(|r.states|, i requires 0 <= i < |r.states| => Remaining(r.states[i]));
    forall i | n <= i < m ensures left[i + 1] + One(!r.steps[i].Tick?) <= left[i] {
      DrainMeasure(r, n, i);
    }
    Descends(r.steps, left, n, m);
  }

  /** Every worker has exited, or its next step is to exit. */
  predicate CanJoin(cfg: Config, s: Pool) {
    forall w | 0 <= w < |s.threads| :: s.threads[w].Exited? || Enabled(cfg, s, Exit(w))
  }

  lemma NothingPending(s: Pool, id: JobId)
    requires InOnePlace(s, id) && CallerMatches(s, id) && id in s.callers && s.queue == [] && Running(s.threads) == 0
    ensures id in s.done
  {
    RunningBounded(s.threads);
    IdleHoldsNothing(s.threads, id);
  }

  lemma PendingIsNotDone(s: Pool, id: JobId)
    requires InOnePlace(s, id) && CallerMatches(s, id)
    requires id in multiset(s.queue) || Holding(s.threads, id) > 0
    ensures id in s.callers && id !in s.done
  {
  }

  lemma AllDoneMeansIdle(s: Pool)
    requires Conserved(s) && CallersMatch(s) && s.callers.Keys == s.done
    ensures s.queue == [] && Running(s.threads) == 0
  {
    if s.queue != [] {
      assert s.queue[0] in multiset(s.queue);
      assert InOnePlace(s, s.queue[0]) && CallerMatches(s, s.queue[0]);
      PendingIsNotDone(s, s.queue[0]);
    }
    RunningBounded(s.threads);
    if w :| 0 <= w < |s.threads| && Active(s.threads[w]) {
      HoldingPositive(s.threads, w, s.threads[w].job);
      assert InOnePlace(s, s.threads[w].job) && CallerMatches(s, s.threads[w].job);
      PendingIsNotDone(s, s.threads[w].job);
    }
  }

  lemma JoinableMeansDrained(cfg: Config, s: Pool)
    requires Shaped(cfg, s) && Conserved(s) && CallersMatch(s)
    requires cfg.workers == 0 ==> s.queue == []
    requires forall w | 0 <= w < |s.threads| && s.threads[w].Exited? :: !s.open && s.queue == []
    requires CanJoin(cfg, s)
    ensures s.queue == [] && s.callers.Keys == s.done
  {
    RunningBounded(s.threads);
    if |s.threads| > 0 {
      assert s.threads[0].Exited? || Enabled(cfg, s, Exit(0));
    }
    forall id | id in s.callers ensures id in s.done {
      assert InOnePlace(s, id) && CallerMatches(s, id);
      NothingPending(s, id);
    }
    forall id | id in s.done ensures id in s.callers {
      assert InOnePlace(s, id) && CallerMatches(s, id);
    }
  }

  lemma JoinedMeansDrained(cfg: Config, s: Pool)
    requires Inv(cfg, s) && forall w | 0 <= w < |s.threads| :: s.threads[w].Exited?
    ensures s.queue == [] && s.callers.Keys == s.done
  {
    JoinableMeansDrained(cfg, s);
  }

  /** After the close, the workers can all be joined exactly when every accepted job has been
      executed and answered, including those whose caller timed out or went away. */
  lemma JoinedExactlyWhenDrained(r: Run, m: nat)
    requires IsRun(r) && m < |r.states| && !r.states[m].open
    ensures CanJoin(r.cfg, r.states[m]) <==> r.states[m].callers.Keys == r.states[m].done
  {
    var s := r.states[m];
    assert Shaped(r.cfg, s) && Conserved(s) && CallersMatch(s) && Lively(r.cfg, s) by { ReachableInv(r, m); }
    if CanJoin(r.cfg, s) {
      JoinableMeansDrained(r.cfg, s);
    }
    if s.callers.Keys == s.done {
      AllDoneMeansIdle(s);
      RunningBounded(s.threads);
    }
  }
}
