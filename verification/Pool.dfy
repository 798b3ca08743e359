/** The pool object. Its fields are what the callers and the worker threads share; each
    method is one atomic stretch of `submit`, of the workers' receive loop, or of `shutdown`,
    and its effect is a step of the protocol. */
module Pools {
  import opened Basics
  import opened Jobs
  import opened HandleCache
  import opened PoolProtocol
  import opened PoolDrain

  /** A job reaches a waiting receiver directly, or is tried on the queue. */
  function Offered(cfg: Config, s: Pool, id: JobId, receiver: Option<nat>): Pool
    requires receiver.Some? ==> receiver.value < |s.threads| && |s.taken| == |s.threads|
  {
    if receiver.Some? then AfterHandOff(s, id, receiver.value) else AfterTrySend(cfg, s, id)
  }

  class WorkerPool {
    const cfg: Config
    var open: bool
    var clock: Instant
    var requests: map<JobId, JobRequest>
    var submitting: set<JobId>
    var shed: set<JobId>
    var refused: set<JobId>
    var queue: seq<JobId>
    var threads: seq<Thread>
    var cores: seq<Core>
    var taken: seq<nat>
    var done: set<JobId>
    var callers: map<JobId, Caller>
    var metrics: Metrics

    function State(): Pool
      reads this
    {
      Pool(open, clock, requests, submitting, shed, refused, queue, threads, cores, taken, done, callers, metrics)
    }

    /** A started pool: every worker has opened its session and waits for jobs. */
    constructor (cfg: Config, sessions: seq<Session>, now: Instant)
      requires |sessions| == cfg.workers
      ensures this.cfg == cfg && State() == Initial(sessions, now)
    {
      this.cfg := cfg;
      var n := |sessions|;
      open, clock := true, now;
      requests, submitting, shed, refused := map[], {}, {}, {};
      queue, done, callers := [], {}, map[];
      threads := seq(n, _ => Idle);
      cores := seq(n, w requires 0 <= w < n => Core(sessions[w], map[]));
      taken := seq(n, _ => 0);
      metrics := Metrics(0, 0, 0, 0, 0, 0, 0, 0);
    }

    /** The `try_send` of a counted job, with the error its caller gets. At depth zero it
        succeeds only if some worker `receiver` is already waiting for a job. */
    method Offer(id: JobId, receiver: Option<nat>) returns (outcome: Result<(), PoolError>)
      requires Shaped(cfg, State()) && id in submitting
      requires receiver.Some? ==> Enabled(cfg, State(), HandOff(id, receiver.value))
      modifies this`submitting, this`refused, this`queue, this`callers, this`shed, this`metrics, this`threads, this`taken
      ensures State() == Offered(cfg, old(State()), id, receiver)
      ensures outcome == if |threads| == 0 then Err(ShuttingDown)
                         else if receiver.Some? || |old(queue)| < cfg.depth then Ok(()) else Err(Overloaded)
    {
      submitting := submitting - {id};
      if receiver.Some? {
        var w := receiver.value;
        threads := threads[w := Busy(id, clock)];
        taken := taken[w := taken[w] + 1];
        callers := callers[id := Waiting(clock)];
        outcome := Ok(());
      } else if |threads| == 0 {
        refused := refused + {id};
        outcome := Err(ShuttingDown);
      } else if |queue| < cfg.depth {
        queue := queue + [id];
        callers := callers[id := Waiting(clock)];
        outcome := Ok(());
      } else {
        metrics := metrics.(rejected := metrics.rejected + 1);
        shed := shed + {id};
        outcome := Err(Overloaded);
      }
    }

    /** `submit` up to its `await`: count the job, offer it, and either wait or fail at once. */
    method Submit(id: JobId, request: JobRequest, receiver: Option<nat>) returns (outcome: Result<(), PoolError>)
      requires Shaped(cfg, State()) && open && id !in requests
      requires receiver.Some? ==> Enabled(cfg, AfterBegin(State(), id, request), HandOff(id, receiver.value))
      modifies this
      ensures State() == Offered(cfg, AfterBegin(old(State()), id, request), id, receiver)
      ensures outcome == if |threads| == 0 then Err(ShuttingDown)
                         else if receiver.Some? || |old(queue)| < cfg.depth then Ok(()) else Err(Overloaded)
    {
      metrics := metrics.(submitted := metrics.submitted + 1);
      requests := requests[id := request];
      submitting := submitting + {id};
      outcome := Offer(id, receiver);
    }

    /** The caller's timer fires: it gives up, the job stays where it is. */
    method GiveUp(token: Token, id: JobId)
      requires Shaped(cfg, State()) && id in callers && callers[id].Waiting? && clock >= callers[id].since + cfg.timeout
      modifies this`callers, this`metrics
      ensures State() == Next(cfg, token, old(State()), TimeOut(id))
    {
      callers := callers[id := TimedOut];
      metrics := metrics.(timedOut := metrics.timedOut + 1);
    }

    method Receive(token: Token, w: nat)
      requires Shaped(cfg, State()) && w < |threads| && threads[w].Idle? && queue != []
      modifies this`threads, this`taken, this`queue
      ensures State() == Next(cfg, token, old(State()), Take(w))
    {
      threads := threads[w := Busy(queue[0], clock)];
      taken := taken[w := taken[w] + 1];
      queue := queue[1..];
    }

    method CountOutcome(e: Executed)
      modifies this`metrics
      ensures metrics == WithOutcome(old(metrics), e)
    {
      if e.hit {
        metrics := metrics.(hits := metrics.hits + 1);
      } else {
        metrics := metrics.(misses := metrics.misses + 1);
      }
      if e.reset {
        metrics := metrics.(resets := metrics.resets + 1);
      }
      match e.result {
        case Ok(_) => metrics := metrics.(completed := metrics.completed + 1);
        case Err(_) => metrics := metrics.(completed := metrics.completed + 1, failed := metrics.failed + 1);
      }
    }

    method ExecuteJob(token: Token, w: nat, env: Env)
      requires Shaped(cfg, State()) && w < |threads| && threads[w].Busy?
      modifies this`threads, this`cores, this`metrics
      ensures State() == Next(cfg, token, old(State()), Finish(w, env))
    {
      var e := Execute(token, cores[w], requests[threads[w].job], env);
      cores := cores[w := e.core];
      CountOutcome(e);
      threads := threads[w := Replying(threads[w].job, threads[w].since, e.result)];
    }

    method Respond(token: Token, w: nat)
      requires Shaped(cfg, State()) && w < |threads| && threads[w].Replying?
      modifies this`threads, this`done, this`callers
      ensures State() == Next(cfg, token, old(State()), Reply(w))
      ensures var id := old(threads)[w].job;
              && id in done && threads[w] == Idle
              && (old(IsWaiting(State(), id)) ==> id in callers && callers[id] == Received(old(threads)[w].result))
    {
      var id := threads[w].job;
      if id in callers && callers[id].Waiting? {
        callers := callers[id := Received(threads[w].result)];
      }
      done := done + {id};
      threads := threads[w := Idle];
    }

    method Leave(token: Token, w: nat)
      requires Shaped(cfg, State()) && w < |threads| && threads[w].Idle? && !open && queue == []
      modifies this`threads
      ensures State() == Next(cfg, token, old(State()), Exit(w))
    {
      threads := threads[w := Exited];
    }

    /** One step of a worker that has not exited, after the close. */
    method Advance(token: Token, w: nat, env: Env)
      requires Inv(cfg, State()) && !open && w < |threads| && !threads[w].Exited?
      modifies this
      ensures exists step :: Enabled(cfg, old(State()), step) && !step.Tick? && State() == Next(cfg, token, old(State()), step)
    {
      match threads[w] {
        case Busy(_, _) =>
          ghost var step := Finish(w, env);
          ExecuteJob(token, w, env);
          assert Enabled(cfg, old(State()), step) && State() == Next(cfg, token, old(State()), step);
        case Replying(_, _, _) =>
          ghost var step := Reply(w);
          Respond(token, w);
          assert Enabled(cfg, old(State()), step) && State() == Next(cfg, token, old(State()), step);
        case Idle =>
          if queue != [] {
            ghost var step := Take(w);
            Receive(token, w);
            assert Enabled(cfg, old(State()), step) && State() == Next(cfg, token, old(State()), step);
          } else {
            ghost var step := Exit(w);
            Leave(token, w);
            assert Enabled(cfg, old(State()), step) && State() == Next(cfg, token, old(State()), step);
          }
      }
    }

    /** Close the queue and join: any worker may move next, and when all have exited every
        accepted job has been executed and its reply attempted, whoever had stopped waiting.
        The surroundings of move `k` are `envs(k)`. */
    method Shutdown(token: Token, envs: nat -> Env)
      requires Inv(cfg, State()) && open && submitting == {} && forall id | id in callers :: !callers[id].Waiting?
      modifies this
      ensures Inv(cfg, State()) && !open
      ensures forall w | 0 <= w < |threads| :: threads[w].Exited?
      ensures requests == old(requests) && callers == old(callers)
      ensures queue == [] && done == callers.Keys
    {
      StepKeepsInv(cfg, token, State(), Close);
      open := false;
      var moves := 0;
      while exists w :: 0 <= w < |threads| && !threads[w].Exited?
        invariant Inv(cfg, State()) && !open
        invariant requests == old(requests) && callers == old(callers)
        decreases Remaining(State())
      {
        var w :| 0 <= w < |threads| && !threads[w].Exited?;
        ghost var before := State();
        Advance(token, w, envs(moves));
        moves := moves + 1;
        ghost var step :| Enabled(cfg, before, step) && !step.Tick? && State() == Next(cfg, token, before, step);
        StepKeepsInv(cfg, token, before, step);
        DrainStep(cfg, token, before, step);
      }
      JoinedMeansDrained(cfg, State());
    }
  }
}
