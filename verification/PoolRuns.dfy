/** Whole runs of the pool: conservation, occupancy, counters, and whose answer a caller gets. */
module PoolRuns {
  import opened Basics
  import opened Jobs
  import opened HandleCache
  import opened PoolProtocol

  /** States and the steps between them. */
  datatype Run = Run(cfg: Config, token: Token, states: seq<Pool>, steps: seq<Step>)

  ghost predicate IsStep(cfg: Config, token: Token, s: Pool, step: Step, s': Pool) {
    Shaped(cfg, s) && Enabled(cfg, s, step) && s' == Next(cfg, token, s, step)
  }

  /** A run of a pool that started with one session per worker. */
  ghost predicate IsRun(r: Run) {
    && |r.states| == |r.steps| + 1
    && (exists sessions, now :: |sessions| == r.cfg.workers && r.states[0] == Initial(sessions, now))
    && (forall i | 0 <= i < |r.steps| :: IsStep(r.cfg, r.token, r.states[i], r.steps[i], r.states[i + 1]))
  }

  lemma {:induction false} ReachableInv(r: Run, i: nat)
    requires IsRun(r) && i < |r.states|
    ensures Inv(r.cfg, r.states[i])
  {
    if i == 0 {
      var sessions, now :| |sessions| == r.cfg.workers && r.states[0] == Initial(sessions, now);
      InitialInv(sessions, now, r.cfg);
    } else {
      ReachableInv(r, i - 1);
      assert IsStep(r.cfg, r.token, r.states[i - 1], r.steps[i - 1], r.states[i]);
      StepKeepsInv(r.cfg, r.token, r.states[i - 1], r.steps[i - 1]);
    }
  }

  /** In every interleaving each submitted job is in exactly one place, the queue and the
      workers are within their bounds, and the counters add up. */
  lemma PoolConservation(r: Run, i: nat)
    requires IsRun(r) && i < |r.states|
    ensures var s := r.states[i];
            && (forall id :: InOnePlace(s, id))
            && |s.queue| <= r.cfg.depth
            && Running(s.threads) <= r.cfg.workers
            && s.metrics.submitted - |s.submitting| - s.metrics.rejected - |s.refused| - |s.done|
                 == |s.queue| + Running(s.threads) <= r.cfg.depth + r.cfg.workers
    ensures var s := r.states[i];
            s.submitting == {} && s.queue == [] && Running(s.threads) == 0 ==>
              && s.metrics.hits + s.metrics.misses == s.metrics.completed == |s.done|
              && s.metrics.completed >= s.metrics.failed
              && s.metrics.submitted == s.metrics.rejected + |s.refused| + s.metrics.completed
  {
    ReachableInv(r, i);
    RunningBounded(r.states[i].threads);
  }

  // ----- Counters and history -----

  datatype Event = Submission | FullQueue | Expiry | AnyFinish | FailedFinish | HitFinish | ResetFinish

  ghost predicate Happens(r: Run, i: nat, e: Event)
    requires i < |r.steps| && i < |r.states|
  {
    var s, step := r.states[i], r.steps[i];
    if e.Submission? then step.Begin?
    else if e.FullQueue? then step.TrySend? && r.cfg.workers > 0 && |s.queue| >= r.cfg.depth
    else if e.Expiry? then step.TimeOut?
    else
      && step.Finish? && Shaped(r.cfg, s) && Enabled(r.cfg, s, step)
      && var x := Executing(r.token, s, step.w, step.env);
         match e
         case FailedFinish => x.result.Err?
         case HitFinish => x.hit
         case ResetFinish => x.reset
         case _ => true
  }

  /** How often an event happened in the first `n` steps. */
  ghost function Occurrences(r: Run, n: nat, e: Event): nat
    requires n <= |r.steps| && n <= |r.states|
  {
    if n == 0 then 0 else Occurrences(r, n - 1, e) + One(Happens(r, n - 1, e))
  }

  lemma CountersStep(r: Run, i: nat)
    requires IsRun(r) && i < |r.steps|
    ensures var m, m' := r.states[i].metrics, r.states[i + 1].metrics;
            && m'.submitted == m.submitted + One(Happens(r, i, Submission))
            && m'.rejected == m.rejected + One(Happens(r, i, FullQueue))
            && m'.timedOut == m.timedOut + One(Happens(r, i, Expiry))
            && m'.completed == m.completed + One(Happens(r, i, AnyFinish))
            && m'.failed == m.failed + One(Happens(r, i, FailedFinish))
            && m'.hits == m.hits + One(Happens(r, i, HitFinish))
            && m'.misses == m.misses + One(Happens(r, i, AnyFinish)) - One(Happens(r, i, HitFinish))
            && m'.resets == m.resets + One(Happens(r, i, ResetFinish))
  {
    assert IsStep(r.cfg, r.token, r.states[i], r.steps[i], r.states[i + 1]);
  }

  /** The counters are the run's history: submissions, offers to a full queue, timeouts, and
      executions, with how many of those failed, found their handle cached, or reset their
      session. */
  lemma {:induction false} CountersAreHistory(r: Run, n: nat)
    requires IsRun(r) && n < |r.states|
    ensures var m := r.states[n].metrics;
            && m.submitted == Occurrences(r, n, Submission)
            && m.rejected == Occurrences(r, n, FullQueue)
            && m.timedOut == Occurrences(r, n, Expiry)
            && m.completed == Occurrences(r, n, AnyFinish)
            && m.failed == Occurrences(r, n, FailedFinish)
            && m.hits == Occurrences(r, n, HitFinish)
            && m.misses == Occurrences(r, n, AnyFinish) - Occurrences(r, n, HitFinish)
            && m.resets == Occurrences(r, n, ResetFinish)
  {
    if n > 0 {
      CountersAreHistory(r, n - 1);
      CountersStep(r, n - 1);
    }
  }

  lemma RefusalStep(cfg: Config, token: Token, s: Pool, step: Step)
    requires Shaped(cfg, s) && Enabled(cfg, s, step)
    ensures var s' := Next(cfg, token, s, step);
            if cfg.workers == 0
            then s.callers == map[] && s.shed == {} ==> s'.callers == map[] && s'.shed == {}
            else s'.refused == s.refused
  {
  }

  /** A pool without workers accepts and sheds nothing; one with workers refuses nothing as
      "shutting down", since the queue outlives every borrower of the pool. */
  lemma {:induction false} RefusedOnlyWithoutWorkers(r: Run, i: nat)
    requires IsRun(r) && i < |r.states|
    ensures if r.cfg.workers == 0
            then r.states[i].callers == map[] && r.states[i].shed == {}
            else r.states[i].refused == {}
  {
    if i > 0 {
      RefusedOnlyWithoutWorkers(r, i - 1);
      assert IsStep(r.cfg, r.token, r.states[i - 1], r.steps[i - 1], r.states[i]);
      RefusalStep(r.cfg, r.token, r.states[i - 1], r.steps[i - 1]);
    }
  }

  /** A submission offered to a pool with workers is accepted exactly if the queue has room
      and shed exactly if it is full. */
  lemma AcceptedExactly(r: Run, i: nat, id: JobId)
    requires IsRun(r) && i < |r.steps| && r.steps[i] == TrySend(id)
    ensures var s, s' := r.states[i], r.states[i + 1];
            && (id in s'.callers <==> r.cfg.workers > 0 && |s.queue| < r.cfg.depth)
            && (id in s'.callers ==> s'.callers[id] == Waiting(s.clock) && s'.queue == s.queue + [id])
            && (id in s'.shed <==> r.cfg.workers > 0 && |s.queue| == r.cfg.depth)
            && (id in s'.refused <==> r.cfg.workers == 0)
  {
    var s := r.states[i];
    assert IsStep(r.cfg, r.token, s, r.steps[i], r.states[i + 1]);
    assert InOnePlace(s, id) && CallerMatches(s, id) && |s.queue| <= r.cfg.depth by { ReachableInv(r, i); }
  }

  lemma CoherenceStep(cfg: Config, token: Token, s: Pool, step: Step, w: nat)
    requires Shaped(cfg, s) && Enabled(cfg, s, step) && w < |s.cores| && Coherent(token, s.cores[w])
    ensures w < |Next(cfg, token, s, step).cores| && Coherent(token, Next(cfg, token, s, step).cores[w])
  {
    if step.Finish? && step.w == w {
      ExecuteKeepsCoherence(token, s.cores[w], s.requests[s.threads[w].job], step.env);
    }
  }

  /** In every run every worker's cached handles are those of the session it now holds. */
  lemma {:induction false} WorkersStayCoherent(r: Run, i: nat, w: nat)
    requires IsRun(r) && i < |r.states| && w < r.cfg.workers
    ensures w < |r.states[i].cores| && Coherent(r.token, r.states[i].cores[w])
  {
    if i > 0 {
      WorkersStayCoherent(r, i - 1, w);
      assert IsStep(r.cfg, r.token, r.states[i - 1], r.steps[i - 1], r.states[i]);
      CoherenceStep(r.cfg, r.token, r.states[i - 1], r.steps[i - 1], w);
    }
  }

  // ----- Replies -----

  /** Step `i` is the execution of job `id`. */
  ghost predicate Executes(r: Run, i: nat, id: JobId) {
    && i < |r.steps| && i < |r.states|
    && r.steps[i].Finish?
    && r.steps[i].w < |r.states[i].threads|
    && r.states[i].threads[r.steps[i].w].Busy?
    && r.states[i].threads[r.steps[i].w].job == id
  }

  /** Step `i` executes `id`'s own request on the executing worker's session, giving `result`. */
  ghost predicate Yields(r: Run, i: nat, id: JobId, request: JobRequest, result: JobResult) {
    && Executes(r, i, id)
    && r.steps[i].w < |r.states[i].cores|
    && result == Execute(r.token, r.states[i].cores[r.steps[i].w], request, r.steps[i].env).result
  }

  predicate OnItsWay(s: Pool, id: JobId, result: JobResult) {
    || (id in s.callers && s.callers[id] == Received(result))
    || exists w | 0 <= w < |s.threads| :: s.threads[w].Replying? && s.threads[w].job == id && s.threads[w].result == result
  }

  lemma RequestsKept(cfg: Config, token: Token, s: Pool, step: Step, id: JobId)
    requires Shaped(cfg, s) && Enabled(cfg, s, step) && id in s.requests
    ensures id in Next(cfg, token, s, step).requests && Next(cfg, token, s, step).requests[id] == s.requests[id]
  {
  }

  lemma {:induction false} AnswerHasOrigin(r: Run, n: nat, id: JobId, result: JobResult)
    requires IsRun(r) && n < |r.states| && OnItsWay(r.states[n], id, result)
    ensures id in r.states[n].requests
    ensures exists i :: 0 <= i < n && Yields(r, i, id, r.states[n].requests[id], result)
  {
    if n > 0 {
      var s, step := r.states[n - 1], r.steps[n - 1];
      assert IsStep(r.cfg, r.token, s, step, r.states[n]);
      if OnItsWay(s, id, result) {
        AnswerHasOrigin(r, n - 1, id, result);
      } else {
        AnswerArises(r.cfg, r.token, s, step, id, result);
        assert Yields(r, n - 1, id, s.requests[id], result);
      }
      RequestsKept(r.cfg, r.token, s, step, id);
    }
  }

  lemma AnswerArises(cfg: Config, token: Token, s: Pool, step: Step, id: JobId, result: JobResult)
    requires Shaped(cfg, s) && Enabled(cfg, s, step)
    requires !OnItsWay(s, id, result) && OnItsWay(Next(cfg, token, s, step), id, result)
    ensures step.Finish? && s.threads[step.w].job == id && result == Executing(token, s, step.w, step.env).result
  {
  }

  /** A caller that receives an answer receives the result of executing its own request, on
      a worker that took its own job, and a success has the variant its request calls for. */
  lemma NoCrossedReplies(r: Run, n: nat, id: JobId)
    requires IsRun(r) && n < |r.states|
    requires id in r.states[n].callers && r.states[n].callers[id].Received?
    ensures id in r.states[n].requests
    ensures var request, result := r.states[n].requests[id], r.states[n].callers[id].result;
            && (exists i :: 0 <= i < n && Yields(r, i, id, request, result))
            && (result.Ok? ==> Matches(request, result.value))
  {
    var result := r.states[n].callers[id].result;
    AnswerHasOrigin(r, n, id, result);
    var request := r.states[n].requests[id];
    var i :| 0 <= i < n && Yields(r, i, id, request, result);
    VariantMatches(r.token, r.states[i].cores[r.steps[i].w], request, r.steps[i].env);
  }

  lemma OutcomeStep(cfg: Config, token: Token, s: Pool, step: Step, id: JobId)
    requires Shaped(cfg, s) && CallerMatches(s, id) && Enabled(cfg, s, step)
    requires id in s.callers && !s.callers[id].Waiting?
    ensures id in Next(cfg, token, s, step).callers && Next(cfg, token, s, step).callers[id] == s.callers[id]
  {
  }

  /** What a caller ends with never changes: at most one answer, and none after giving up. */
  lemma {:induction false} CallerOutcomeIsFinal(r: Run, n: nat, m: nat, id: JobId)
    requires IsRun(r) && n <= m < |r.states|
    requires id in r.states[n].callers && !r.states[n].callers[id].Waiting?
    ensures id in r.states[m].callers && r.states[m].callers[id] == r.states[n].callers[id]
  {
    if n < m {
      CallerOutcomeIsFinal(r, n, m - 1, id);
      assert CallerMatches(r.states[m - 1], id) by { ReachableInv(r, m - 1); }
      assert IsStep(r.cfg, r.token, r.states[m - 1], r.steps[m - 1], r.states[m]);
      OutcomeStep(r.cfg, r.token, r.states[m - 1], r.steps[m - 1], id);
    }
  }

  // ----- How a call of `submit` ends -----

  /** Has `step` been taken before state `n`? */
  ghost predicate Happened(r: Run, n: nat, step: Step) {
    exists i :: 0 <= i < n && i < |r.steps| && r.steps[i] == step
  }

  /** A reply to a caller that still waits is the result of its job. */
  lemma ReplyDelivers(cfg: Config, token: Token, s: Pool, w: nat)
    requires Shaped(cfg, s) && Enabled(cfg, s, Reply(w)) && IsWaiting(s, s.threads[w].job)
    ensures var id, s' := s.threads[w].job, Next(cfg, token, s, Reply(w));
            id in s'.callers && s'.callers[id] == Received(s.threads[w].result) && id in s'.done
  {
  }

  lemma EndStep(cfg: Config, token: Token, s: Pool, step: Step, id: JobId)
    requires Shaped(cfg, s) && CallerMatches(s, id) && InOnePlace(s, id) && Enabled(cfg, s, step)
    requires id in Next(cfg, token, s, step).callers
    ensures var c := Next(cfg, token, s, step).callers[id];
            if id !in s.callers then c.Waiting?
            else if !s.callers[id].Waiting? then c == s.callers[id]
            else if step == TimeOut(id) then c == TimedOut
            else if step == DropCaller(id) then c == Dropped
            else if step.Reply? && s.threads[step.w].job == id then c == Received(s.threads[step.w].result)
            else c == s.callers[id]
    ensures id in Next(cfg, token, s, step).done <==> id in s.done || (step.Reply? && s.threads[step.w].job == id)
  {
  }

  lemma {:induction false} GaveUpAtMostOnce(r: Run, n: nat, id: JobId)
    requires IsRun(r) && n < |r.states| && id !in r.states[n].callers
    ensures !Happened(r, n, TimeOut(id)) && !Happened(r, n, DropCaller(id)) && id !in r.states[n].done
  {
    if n > 0 {
      assert IsStep(r.cfg, r.token, r.states[n - 1], r.steps[n - 1], r.states[n]);
      assert CallerMatches(r.states[n], id) && InOnePlace(r.states[n], id) by { ReachableInv(r, n); }
      CallersKept(r.cfg, r.token, r.states[n - 1], r.steps[n - 1], id);
      GaveUpAtMostOnce(r, n - 1, id);
    }
  }

  lemma CallersKept(cfg: Config, token: Token, s: Pool, step: Step, id: JobId)
    requires Shaped(cfg, s) && Enabled(cfg, s, step)
    ensures id in s.callers ==> id in Next(cfg, token, s, step).callers
  {
  }

  /** How the call behind an accepted job ends: with a timeout exactly if its timer fired, as
      dropped exactly if it was dropped, and otherwise with the answer as soon as its job is
      done. Until one of these it waits. */
  ghost predicate EndsRight(r: Run, n: nat, id: JobId)
    requires n < |r.states| && id in r.states[n].callers
  {
    var s := r.states[n];
    var expired, dropped := Happened(r, n, TimeOut(id)), Happened(r, n, DropCaller(id));
    && (s.callers[id].TimedOut? <==> expired)
    && (s.callers[id].Dropped? <==> dropped)
    && (s.callers[id].Received? <==> id in s.done && !expired && !dropped)
    && (s.callers[id].Waiting? <==> id !in s.done && !expired && !dropped)
  }

  lemma HappenedStep(r: Run, n: nat, step: Step)
    requires IsRun(r) && n < |r.steps|
    ensures Happened(r, n + 1, step) <==> Happened(r, n, step) || r.steps[n] == step
  {
  }

  lemma {:induction false} CallsEndRight(r: Run, n: nat, id: JobId)
    requires IsRun(r) && n < |r.states| && id in r.states[n].callers
    ensures EndsRight(r, n, id)
  {
    if n > 0 {
      var s, step := r.states[n - 1], r.steps[n - 1];
      assert IsStep(r.cfg, r.token, s, step, r.states[n]);
      assert CallerMatches(s, id) && InOnePlace(s, id) by { ReachableInv(r, n - 1); }
      HappenedStep(r, n - 1, TimeOut(id));
      HappenedStep(r, n - 1, DropCaller(id));
      EndStep(r.cfg, r.token, s, step, id);
      if id in s.callers {
        CallsEndRight(r, n - 1, id);
      } else {
        GaveUpAtMostOnce(r, n - 1, id);
      }
    }
  }

  /** A caller that did not give up is answered: once its job is done it holds the result
      that executing its own request gave. */
  lemma WaitingIsAnswered(r: Run, i: nat, j: nat, id: JobId)
    requires IsRun(r) && i < j < |r.states| && IsWaiting(r.states[i], id) && id in r.states[j].done
    requires forall k | i <= k < j :: r.steps[k] != TimeOut(id) && r.steps[k] != DropCaller(id)
    ensures id in r.states[j].callers && r.states[j].callers[id].Received? && id in r.states[j].requests
    ensures exists k :: 0 <= k < j && Yields(r, k, id, r.states[j].requests[id], r.states[j].callers[id].result)
  {
    CallsEndRight(r, i, id);
    assert CallerMatches(r.states[j], id) && InOnePlace(r.states[j], id) by { ReachableInv(r, j); }
    CallsEndRight(r, j, id);
    NoCrossedReplies(r, j, id);
  }

  predicate HasRun(s: Pool, id: JobId) {
    id in s.done || exists w | 0 <= w < |s.threads| :: s.threads[w].Replying? && s.threads[w].job == id
  }

  lemma StaysExecuted(cfg: Config, token: Token, s: Pool, step: Step, id: JobId)
    requires Shaped(cfg, s) && Enabled(cfg, s, step) && HasRun(s, id)
    ensures HasRun(Next(cfg, token, s, step), id)
  {
    var s' := Next(cfg, token, s, step);
    if id !in s.done {
      var w :| 0 <= w < |s.threads| && s.threads[w].Replying? && s.threads[w].job == id;
      if !(step.Reply? && step.w == w) {
        assert s'.threads[w] == s.threads[w];
      }
    }
  }

  lemma {:induction false} TwoHolders(threads: seq<Thread>, v: nat, w: nat, id: JobId)
    requires v < w < |threads| && Holds(threads[v], id) && Holds(threads[w], id)
    ensures Holding(threads, id) >= 2
  {
    if w == |threads| - 1 {
      HoldingPositive(Front(threads), v, id);
    } else {
      TwoHolders(Front(threads), v, w, id);
    }
  }

  lemma ExecutedIsNotBusy(s: Pool, id: JobId, w: nat)
    requires Conserved(s) && HasRun(s, id) && w < |s.threads|
    ensures !(s.threads[w].Busy? && s.threads[w].job == id)
  {
    if s.threads[w].Busy? && s.threads[w].job == id {
      HoldingPositive(s.threads, w, id);
      assert InOnePlace(s, id);
      if id !in s.done {
        var v :| 0 <= v < |s.threads| && s.threads[v].Replying? && s.threads[v].job == id;
        TwoHolders(s.threads, if v < w then v else w, if v < w then w else v, id);
      }
    }
  }

  lemma {:induction false} ExecutedForever(r: Run, n: nat, m: nat, id: JobId)
    requires IsRun(r) && n <= m < |r.states| && HasRun(r.states[n], id)
    ensures HasRun(r.states[m], id)
  {
    if n < m {
      ExecutedForever(r, n, m - 1, id);
      assert IsStep(r.cfg, r.token, r.states[m - 1], r.steps[m - 1], r.states[m]);
      StaysExecuted(r.cfg, r.token, r.states[m - 1], r.steps[m - 1], id);
    }
  }

  /** No job is ever executed twice. */
  lemma ExecutedOnce(r: Run, i: nat, j: nat, id: JobId)
    requires IsRun(r) && Executes(r, i, id) && Executes(r, j, id)
    ensures i == j
  {
    if i != j {
      var first, second := if i < j then i else j, if i < j then j else i;
      assert IsStep(r.cfg, r.token, r.states[first], r.steps[first], r.states[first + 1]);
      var w := r.steps[first].w;
      assert r.states[first + 1].threads[w].Replying? && r.states[first + 1].threads[w].job == id;
      ExecutedForever(r, first + 1, second, id);
      ReachableInv(r, second);
      ExecutedIsNotBusy(r.states[second], id, r.steps[second].w);
    }
  }
}
