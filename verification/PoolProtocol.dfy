/** The worker pool as a small-step system: callers submitting and giving up, one bounded
    FIFO queue, N worker threads with one session each, one-shot replies, and shutdown.

    A step is one atomic action of one caller, one worker or the clock, so every
    interleaving of the real threads is a step sequence. */
module PoolProtocol {
  import opened Basics
  import opened Jobs
  import opened HandleCache

  type JobId = nat

  /** A worker thread at `recv`, executing, about to answer, or gone. `since` is when it took the job. */
  datatype Thread =
    | Idle
    | Busy(job: JobId, since: Instant)
    | Replying(job: JobId, since: Instant, result: JobResult)
    | Exited

  datatype Caller = Waiting(since: Instant) | TimedOut | Dropped | Received(result: JobResult)

  datatype Metrics = Metrics(
    submitted: nat, rejected: nat, completed: nat, failed: nat, timedOut: nat, hits: nat, misses: nat, resets: nat)

  datatype Config = Config(workers: nat, depth: nat, timeout: nat)

  datatype Pool = Pool(
    open: bool,
    clock: Instant,
    requests: map<JobId, JobRequest>,  // every job ever submitted
    submitting: set<JobId>,            // counted, not yet offered to the queue
    shed: set<JobId>,
    refused: set<JobId>,
    queue: seq<JobId>,
    threads: seq<Thread>,
    cores: seq<Core>,
    taken: seq<nat>,                   // how many jobs each worker has taken
    done: set<JobId>,                  // executed, and the reply attempted
    callers: map<JobId, Caller>,       // the callers of accepted jobs
    metrics: Metrics)

  datatype Step =
    | Begin(id: JobId, request: JobRequest)
    | TrySend(id: JobId)
    | HandOff(id: JobId, w: nat)
    | TimeOut(id: JobId)
    | DropCaller(id: JobId)
    | Take(w: nat)
    | Finish(w: nat, env: Env)
    | Reply(w: nat)
    | Tick(now: Instant)
    | Close
    | Exit(w: nat)

  predicate Active(t: Thread) {
    t.Busy? || t.Replying?
  }

  predicate IsWaiting(s: Pool, id: JobId) {
    id in s.callers && s.callers[id].Waiting?
  }

  predicate Enabled(cfg: Config, s: Pool, step: Step) {
    match step
    case Begin(id, _) => s.open && id !in s.requests
    case TrySend(id) => id in s.submitting
    // A channel of depth zero passes a job only to a receiver already waiting.
    case HandOff(id, w) => id in s.submitting && cfg.depth == 0 && w < |s.threads| && s.threads[w].Idle?
    case TimeOut(id) => IsWaiting(s, id) && s.clock >= s.callers[id].since + cfg.timeout
    case DropCaller(id) => IsWaiting(s, id)
    case Take(w) => w < |s.threads| && s.threads[w].Idle? && s.queue != []
    case Finish(w, _) => w < |s.threads| && s.threads[w].Busy?
    case Reply(w) => w < |s.threads| && s.threads[w].Replying?
    case Tick(now) => s.clock <= now
    // `shutdown` consumes the pool, so no `submit` future is still borrowing it.
    case Close => s.open && s.submitting == {} && forall id | id in s.callers :: !s.callers[id].Waiting?
    case Exit(w) => w < |s.threads| && s.threads[w].Idle? && !s.open && s.queue == []
  }

  function AfterBegin(s: Pool, id: JobId, request: JobRequest): Pool {
    s.(requests := s.requests[id := request], submitting := s.submitting + {id},
       metrics := s.metrics.(submitted := s.metrics.submitted + 1))
  }

  function AfterTimeOut(s: Pool, id: JobId): Pool {
    s.(callers := s.callers[id := TimedOut], metrics := s.metrics.(timedOut := s.metrics.timedOut + 1))
  }

  function Refuse(s: Pool, id: JobId): Pool {
    s.(submitting := s.submitting - {id}, refused := s.refused + {id})
  }

  function Enqueue(s: Pool, id: JobId): Pool {
    s.(submitting := s.submitting - {id}, queue := s.queue + [id], callers := s.callers[id := Waiting(s.clock)])
  }

  function Shed(s: Pool, id: JobId): Pool {
    s.(submitting := s.submitting - {id}, shed := s.shed + {id},
       metrics := s.metrics.(rejected := s.metrics.rejected + 1))
  }

  /** `try_send`: disconnected without receivers, full at capacity, otherwise enqueued. */
  function AfterTrySend(cfg: Config, s: Pool, id: JobId): Pool {
    if |s.threads| == 0 then Refuse(s, id)
    else if |s.queue| < cfg.depth then Enqueue(s, id)
    else Shed(s, id)
  }

  function AfterHandOff(s: Pool, id: JobId, w: nat): Pool
    requires w < |s.threads| && |s.taken| == |s.threads|
  {
    s.(submitting := s.submitting - {id},
       threads := s.threads[w := Busy(id, s.clock)],
       taken := s.taken[w := s.taken[w] + 1],
       callers := s.callers[id := Waiting(s.clock)])
  }

  function AfterTake(s: Pool, w: nat): Pool
    requires w < |s.threads| && |s.taken| == |s.threads| && s.queue != []
  {
    s.(queue := s.queue[1..],
       threads := s.threads[w := Busy(s.queue[0], s.clock)],
       taken := s.taken[w := s.taken[w] + 1])
  }

  function Executing(token: Token, s: Pool, w: nat, env: Env): Executed
    requires w < |s.threads| && |s.cores| == |s.threads| && s.threads[w].Busy? && s.threads[w].job in s.requests
  {
    Execute(token, s.cores[w], s.requests[s.threads[w].job], env)
  }

  function WithOutcome(m: Metrics, e: Executed): Metrics {
    m.(completed := m.completed + 1,
       failed := m.failed + (if e.result.Err? then 1 else 0),
       hits := m.hits + (if e.hit then 1 else 0),
       misses := m.misses + (if e.hit then 0 else 1),
       resets := m.resets + (if e.reset then 1 else 0))
  }

  function AfterFinish(token: Token, s: Pool, w: nat, env: Env): Pool
    requires w < |s.threads| && |s.cores| == |s.threads| && s.threads[w].Busy? && s.threads[w].job in s.requests
  {
    var e := Executing(token, s, w, env);
    s.(threads := s.threads[w := Replying(s.threads[w].job, s.threads[w].since, e.result)],
       cores := s.cores[w := e.core],
       metrics := WithOutcome(s.metrics, e))
  }

  /** A caller that gave up has dropped its receiver; the send then goes nowhere. */
  function AfterReply(s: Pool, w: nat): Pool
    requires w < |s.threads| && s.threads[w].Replying?
  {
    var id, result := s.threads[w].job, s.threads[w].result;
    s.(threads := s.threads[w := Idle],
       done := s.done + {id},
       callers := if IsWaiting(s, id) then s.callers[id := Received(result)] else s.callers)
  }

  ghost predicate Shaped(cfg: Config, s: Pool) {
    && |s.threads| == |s.cores| == |s.taken| == cfg.workers
    && (forall w | 0 <= w < |s.threads| && Active(s.threads[w]) :: s.threads[w].job in s.requests)
  }

  ghost function Next(cfg: Config, token: Token, s: Pool, step: Step): Pool
    requires Shaped(cfg, s) && Enabled(cfg, s, step)
  {
    match step
    case Begin(id, request) => AfterBegin(s, id, request)
    case TrySend(id) => AfterTrySend(cfg, s, id)
    case HandOff(id, w) => AfterHandOff(s, id, w)
    case TimeOut(id) => AfterTimeOut(s, id)
    case DropCaller(id) => s.(callers := s.callers[id := Dropped])
    case Take(w) => AfterTake(s, w)
    case Finish(w, env) => AfterFinish(token, s, w, env)
    case Reply(w) => AfterReply(s, w)
    case Tick(now) => s.(clock := now)
    case Close => s.(open := false)
    case Exit(w) => s.(threads := s.threads[w := Exited])
  }

  function Initial(sessions: seq<Session>, now: Instant): Pool {
    var n := |sessions|;
    Pool(true, now, map[], {}, {}, {}, [],
         seq(n, _ => Idle), seq(n, w requires 0 <= w < n => Core(sessions[w], map[])), seq(n, _ => 0),
         {}, map[], Metrics(0, 0, 0, 0, 0, 0, 0, 0))
  }

  // ----- Counting -----

  function One(b: bool): nat {
    if b then 1 else 0
  }

  predicate Holds(t: Thread, id: JobId) {
    Active(t) && t.job == id
  }

  function Holding(threads: seq<Thread>, id: JobId): nat {
    if threads == [] then 0 else Holding(Front(threads), id) + One(Holds(Last(threads), id))
  }

  /** Threads between taking a job and being back at `recv`. */
  function Running(threads: seq<Thread>): nat {
    if threads == [] then 0 else Running(Front(threads)) + One(Active(Last(threads)))
  }

  function Answering(threads: seq<Thread>): nat {
    if threads == [] then 0 else Answering(Front(threads)) + One(Last(threads).Replying?)
  }

  lemma {:induction false} ThreadUpdate(threads: seq<Thread>, w: nat, t: Thread)
    requires w < |threads|
    ensures forall id :: Holding(threads[w := t], id) + One(Holds(threads[w], id)) == Holding(threads, id) + One(Holds(t, id))
    ensures Running(threads[w := t]) + One(Active(threads[w])) == Running(threads) + One(Active(t))
    ensures Answering(threads[w := t]) + One(threads[w].Replying?) == Answering(threads) + One(t.Replying?)
  {
    var u := threads[w := t];
    if w < |threads| - 1 {
      ThreadUpdate(Front(threads), w, t);
      assert Front(u) == Front(threads)[w := t];
    } else {
      assert Front(u) == Front(threads);
    }
  }

  lemma {:induction false} HoldingPositive(threads: seq<Thread>, w: nat, id: JobId)
    requires w < |threads| && Holds(threads[w], id)
    ensures Holding(threads, id) >= 1
  {
    if w < |threads| - 1 {
      HoldingPositive(Front(threads), w, id);
    }
  }

  lemma {:induction false} RunningBounded(threads: seq<Thread>)
    ensures Running(threads) <= |threads|
    ensures Running(threads) == 0 <==> forall w | 0 <= w < |threads| :: threads[w].Idle? || threads[w].Exited?
    ensures Answering(threads) <= Running(threads)
  {
    if threads != [] {
      RunningBounded(Front(threads));
      assert forall w | 0 <= w < |threads| - 1 :: threads[w] == Front(threads)[w];
    }
  }

  // ----- Invariants -----

  /** In how many places a job is. */
  function Places(s: Pool, id: JobId): nat {
    One(id in s.submitting) + One(id in s.shed) + One(id in s.refused) +
    multiset(s.queue)[id] + Holding(s.threads, id) + One(id in s.done)
  }

  ghost predicate InOnePlace(s: Pool, id: JobId) {
    Places(s, id) == One(id in s.requests)
  }

  /** Every submitted job is in exactly one place, and no other job is anywhere. */
  ghost predicate Conserved(s: Pool) {
    forall id :: InOnePlace(s, id)
  }

  function TimedOutJobs(callers: map<JobId, Caller>): set<JobId> {
    set id | id in callers && callers[id].TimedOut?
  }

  /** The submission counter is the sum over all places. */
  ghost predicate Balanced(s: Pool) {
    && s.metrics.submitted == |s.requests|
    && |s.requests| == |s.submitting| + |s.shed| + |s.refused| + |s.queue| + Running(s.threads) + |s.done|
  }

  /** Each other counter says what happened. Every job resolves its handle exactly once. */
  ghost predicate Tallied(s: Pool) {
    var m := s.metrics;
    && m.rejected == |s.shed|
    && m.completed == |s.done| + Answering(s.threads)
    && m.hits + m.misses == m.completed
    && m.resets <= m.failed <= m.completed
  }

  ghost predicate Counted(s: Pool) {
    Balanced(s) && Tallied(s) && s.metrics.timedOut == |TimedOutJobs(s.callers)|
  }

  /** Callers exist for accepted jobs only, an answered job has no waiting caller, and an
      answer is only ever received for an answered job. */
  ghost predicate CallerMatches(s: Pool, id: JobId) {
    && (id in s.callers <==> id in s.requests && id !in s.submitting && id !in s.shed && id !in s.refused)
    && (id in s.callers && s.callers[id].Waiting? ==> id !in s.done)
    && (id in s.callers && s.callers[id].Received? ==> id in s.done)
  }

  ghost predicate CallersMatch(s: Pool) {
    forall id :: CallerMatches(s, id)
  }

  ghost predicate Lively(cfg: Config, s: Pool) {
    && |s.queue| <= cfg.depth
    && (cfg.workers == 0 ==> s.queue == [])
    && (!s.open ==> s.submitting == {} && forall id | id in s.callers :: !s.callers[id].Waiting?)
    && (forall w | 0 <= w < |s.threads| && s.threads[w].Exited? :: !s.open && s.queue == [])
    && (forall w | 0 <= w < |s.threads| && Active(s.threads[w]) :: s.threads[w].since <= s.clock)
  }

  /** Where jobs are, what was counted, and who waits. */
  ghost predicate Accounted(s: Pool) {
    Conserved(s) && Counted(s) && CallersMatch(s)
  }

  ghost predicate Inv(cfg: Config, s: Pool) {
    Shaped(cfg, s) && Accounted(s) && Lively(cfg, s)
  }

  lemma InitialInv(sessions: seq<Session>, now: Instant, cfg: Config)
    requires cfg.workers == |sessions|
    ensures Inv(cfg, Initial(sessions, now))
  {
    var s := Initial(sessions, now);
    forall id ensures Holding(s.threads, id) == 0 { IdleHoldsNothing(s.threads, id); }
    RunningBounded(s.threads);
    assert TimedOutJobs(s.callers) == {};
  }

  lemma {:induction false} IdleHoldsNothing(threads: seq<Thread>, id: JobId)
    requires forall w | 0 <= w < |threads| :: !Holds(threads[w], id)
    ensures Holding(threads, id) == 0
  {
    if threads != [] { IdleHoldsNothing(Front(threads), id); }
  }

  // ----- Every step keeps the accounts -----

  lemma TimedOutUpdate(callers: map<JobId, Caller>, id: JobId, c: Caller)
    requires id in callers ==> !callers[id].TimedOut?
    ensures |TimedOutJobs(callers[id := c])| == |TimedOutJobs(callers)| + One(c.TimedOut?)
  {
    assert TimedOutJobs(callers[id := c]) == TimedOutJobs(callers) + (if c.TimedOut? then {id} else {});
  }

  lemma BeginAccounted(s: Pool, id: JobId, request: JobRequest)
    requires Accounted(s) && id !in s.requests
    ensures Accounted(AfterBegin(s, id, request))
  {
    var s' := AfterBegin(s, id, request);
    assert InOnePlace(s, id) && CallerMatches(s, id);
    forall other ensures InOnePlace(s', other) && CallerMatches(s', other) {
      assert InOnePlace(s, other) && CallerMatches(s, other);
    }
  }

  lemma RefuseAccounted(s: Pool, id: JobId)
    requires Accounted(s) && id in s.submitting
    ensures Accounted(Refuse(s, id))
  {
    var s' := Refuse(s, id);
    assert InOnePlace(s, id) && CallerMatches(s, id);
    forall other ensures InOnePlace(s', other) && CallerMatches(s', other) {
      assert InOnePlace(s, other) && CallerMatches(s, other);
    }
  }

  lemma EnqueueAccounted(s: Pool, id: JobId)
    requires Accounted(s) && id in s.submitting
    ensures Accounted(Enqueue(s, id))
  {
    var s' := Enqueue(s, id);
    assert InOnePlace(s, id) && CallerMatches(s, id);
    forall other ensures InOnePlace(s', other) && CallerMatches(s', other) {
      assert InOnePlace(s, other) && CallerMatches(s, other);
    }
    TimedOutUpdate(s.callers, id, Waiting(s.clock));
  }

  lemma ShedAccounted(s: Pool, id: JobId)
    requires Accounted(s) && id in s.submitting
    ensures Accounted(Shed(s, id))
  {
    var s' := Shed(s, id);
    assert InOnePlace(s, id) && CallerMatches(s, id);
    forall other ensures InOnePlace(s', other) && CallerMatches(s', other) {
      assert InOnePlace(s, other) && CallerMatches(s, other);
    }
  }

  lemma HandOffAccounted(s: Pool, id: JobId, w: nat)
    requires Accounted(s) && id in s.submitting && w < |s.threads| && |s.taken| == |s.threads| && s.threads[w].Idle?
    ensures Accounted(AfterHandOff(s, id, w))
  {
    var s' := AfterHandOff(s, id, w);
    ThreadUpdate(s.threads, w, Busy(id, s.clock));
    assert InOnePlace(s, id) && CallerMatches(s, id);
    forall other ensures InOnePlace(s', other) && CallerMatches(s', other) {
      assert InOnePlace(s, other) && CallerMatches(s, other);
    }
    TimedOutUpdate(s.callers, id, Waiting(s.clock));
  }

  lemma CallerAccounted(s: Pool, id: JobId, c: Caller, metrics: Metrics)
    requires Accounted(s) && IsWaiting(s, id) && (c.TimedOut? || c.Dropped?)
    requires metrics == s.metrics.(timedOut := s.metrics.timedOut + One(c.TimedOut?))
    ensures Accounted(s.(callers := s.callers[id := c], metrics := metrics))
  {
    var s' := s.(callers := s.callers[id := c], metrics := metrics);
    forall other ensures InOnePlace(s', other) && CallerMatches(s', other) {
      assert InOnePlace(s, other) && CallerMatches(s, other);
    }
    TimedOutUpdate(s.callers, id, c);
  }

  lemma TakeAccounted(s: Pool, w: nat)
    requires Accounted(s) && w < |s.threads| && |s.taken| == |s.threads| && s.queue != [] && s.threads[w].Idle?
    ensures Accounted(AfterTake(s, w))
  {
    var s' := AfterTake(s, w);
    ThreadUpdate(s.threads, w, Busy(s.queue[0], s.clock));
    assert s.queue == [s.queue[0]] + s.queue[1..];
    forall other ensures InOnePlace(s', other) && CallerMatches(s', other) {
      assert InOnePlace(s, other) && CallerMatches(s, other);
    }
  }

  lemma ResetMeansFailure(token: Token, core: Core, request: JobRequest, env: Env)
    ensures Execute(token, core, request, env).reset ==> Execute(token, core, request, env).result.Err?
  {
  }

  lemma OutcomeAccounted(s: Pool, w: nat, cores: seq<Core>, e: Executed)
    requires Accounted(s) && w < |s.threads| && s.threads[w].Busy? && (e.reset ==> e.result.Err?)
    ensures Accounted(s.(threads := s.threads[w := Replying(s.threads[w].job, s.threads[w].since, e.result)],
                         cores := cores, metrics := WithOutcome(s.metrics, e)))
  {
    var s' := s.(threads := s.threads[w := Replying(s.threads[w].job, s.threads[w].since, e.result)],
                 cores := cores, metrics := WithOutcome(s.metrics, e));
    ThreadUpdate(s.threads, w, Replying(s.threads[w].job, s.threads[w].since, e.result));
    forall other ensures InOnePlace(s', other) && CallerMatches(s', other) {
      assert InOnePlace(s, other) && CallerMatches(s, other);
    }
  }

  lemma ReplyAccounted(s: Pool, w: nat)
    requires Accounted(s) && w < |s.threads| && s.threads[w].Replying?
    ensures Accounted(AfterReply(s, w))
  {
    var s', id := AfterReply(s, w), s.threads[w].job;
    ThreadUpdate(s.threads, w, Idle);
    HoldingPositive(s.threads, w, id);
    assert InOnePlace(s, id) && CallerMatches(s, id);
    forall other ensures InOnePlace(s', other) && CallerMatches(s', other) {
      assert InOnePlace(s, other) && CallerMatches(s, other);
    }
    if IsWaiting(s, id) { TimedOutUpdate(s.callers, id, Received(s.threads[w].result)); }
  }

  lemma ExitAccounted(s: Pool, w: nat)
    requires Accounted(s) && w < |s.threads| && s.threads[w].Idle?
    ensures Accounted(s.(threads := s.threads[w := Exited]))
  {
    var s' := s.(threads := s.threads[w := Exited]);
    ThreadUpdate(s.threads, w, Exited);
    forall other ensures InOnePlace(s', other) && CallerMatches(s', other) {
      assert InOnePlace(s, other) && CallerMatches(s, other);
    }
  }

  lemma SameAccounts(s: Pool, s': Pool)
    requires Accounted(s) && s' == s.(clock := s'.clock, open := s'.open)
    ensures Accounted(s')
  {
    forall other ensures InOnePlace(s', other) && CallerMatches(s', other) {
      assert InOnePlace(s, other) && CallerMatches(s, other);
    }
  }

  lemma StepAccounted(cfg: Config, token: Token, s: Pool, step: Step)
    requires Shaped(cfg, s) && Accounted(s) && Enabled(cfg, s, step)
    ensures Accounted(Next(cfg, token, s, step))
  {
    match step {
      case Begin(id, request) => BeginAccounted(s, id, request);
      case TrySend(id) =>
        if |s.threads| == 0 { RefuseAccounted(s, id); }
        else if |s.queue| < cfg.depth { EnqueueAccounted(s, id); }
        else { ShedAccounted(s, id); }
      case HandOff(id, w) => HandOffAccounted(s, id, w);
      case TimeOut(id) => CallerAccounted(s, id, TimedOut, AfterTimeOut(s, id).metrics);
      case DropCaller(id) => CallerAccounted(s, id, Dropped, s.metrics);
      case Take(w) => TakeAccounted(s, w);
      case Finish(w, env) =>
        ResetMeansFailure(token, s.cores[w], s.requests[s.threads[w].job], env);
        OutcomeAccounted(s, w, Next(cfg, token, s, step).cores, Executing(token, s, w, env));
      case Reply(w) => ReplyAccounted(s, w);
      case Tick(_) => SameAccounts(s, Next(cfg, token, s, step));
      case Close => SameAccounts(s, Next(cfg, token, s, step));
      case Exit(w) => ExitAccounted(s, w);
    }
  }

  lemma StepShaped(cfg: Config, token: Token, s: Pool, step: Step)
    requires Shaped(cfg, s) && Conserved(s) && Enabled(cfg, s, step)
    ensures Shaped(cfg, Next(cfg, token, s, step))
  {
    match step {
      case HandOff(id, w) => assert InOnePlace(s, id);
      case Take(w) =>
        assert s.queue[0] in multiset(s.queue);
        assert InOnePlace(s, s.queue[0]);
      case _ =>
    }
  }

  lemma StepLively(cfg: Config, token: Token, s: Pool, step: Step)
    requires Shaped(cfg, s) && Lively(cfg, s) && Enabled(cfg, s, step)
    ensures Lively(cfg, Next(cfg, token, s, step))
  {
  }

  lemma StepKeepsInv(cfg: Config, token: Token, s: Pool, step: Step)
    requires Inv(cfg, s) && Enabled(cfg, s, step)
    ensures Inv(cfg, Next(cfg, token, s, step))
  {
    StepShaped(cfg, token, s, step);
    StepAccounted(cfg, token, s, step);
    StepLively(cfg, token, s, step);
  }

  /** The steps of worker threads. */
  predicate MovesThread(step: Step) {
    step.HandOff? || step.Take? || step.Finish? || step.Reply? || step.Exit?
  }
}
