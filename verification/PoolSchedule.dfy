/** How long an accepted job waits for a worker, and when a caller can time out at all.

    Time passes only while every worker is busy or the queue is empty (an idle worker takes
    a queued job at once), and no job keeps a worker longer than `service`, from taking it
    to being back at the queue, session recovery included. */
module PoolSchedule {
  import opened Basics
  import opened HandleCache
  import opened PoolProtocol
  import opened PoolRuns

  predicate MayTick(s: Pool, service: nat, now: Instant) {
    && (s.queue != [] ==> forall w | 0 <= w < |s.threads| :: !s.threads[w].Idle?)
    && (forall w | 0 <= w < |s.threads| && Active(s.threads[w]) :: now <= s.threads[w].since + service)
  }

  /** Work-conserving, with bounded service times. */
  ghost predicate Timely(r: Run, service: nat) {
    forall i | 0 <= i < |r.steps| && i < |r.states| && r.steps[i].Tick? :: MayTick(r.states[i], service, r.steps[i].now)
  }

  function CeilDiv(a: nat, b: nat): nat
    requires b > 0
  {
    (a + b - 1) / b
  }

  function Sum(s: seq<nat>): nat {
    if s == [] then 0 else Sum(Front(s)) + Last(s)
  }

  lemma {:induction false} SumUpdate(s: seq<nat>, w: nat, v: nat)
    requires w < |s|
    ensures Sum(s[w := v]) + s[w] == Sum(s) + v
  {
    if w < |s| - 1 {
      SumUpdate(Front(s), w, v);
      assert Front(s[w := v]) == Front(s)[w := v];
    } else {
      assert Front(s[w := v]) == Front(s);
    }
  }

  lemma {:induction false} SumSpread(a: seq<nat>, b: seq<nat>, m: nat)
    requires |a| == |b| && forall w | 0 <= w < |a| :: a[w] + m <= b[w]
    ensures Sum(a) + |a| * m <= Sum(b)
  {
    if a != [] {
      SumSpread(Front(a), Front(b), m);
      assert |a| * m == |Front(a)| * m + m;
    }
  }

  // ----- One queued job, followed through the run -----

  /** A job that was in the queue at position `k` when it was marked. */
  datatype Mark = Mark(id: JobId, k: nat, at: Instant, taken: seq<nat>)

  function Gone(mark: Mark, s: Pool): int {
    Sum(s.taken) - Sum(mark.taken)
  }

  /** How many jobs worker `w` has taken since the mark. */
  function Since(mark: Mark, s: Pool, w: nat): int
    requires w < |s.taken| == |mark.taken|
  {
    s.taken[w] as int - mark.taken[w] as int
  }

  /** While the marked job is queued: each worker started its current job at most
      `Since * service` after the mark, and the clock is at most one service time further. */
  ghost predicate OnTime(mark: Mark, s: Pool, service: nat, w: nat)
    requires w < |s.taken| == |mark.taken| && w < |s.threads|
  {
    && Since(mark, s, w) >= 0
    && s.clock <= mark.at + (Since(mark, s, w) + 1) * service
    && (Active(s.threads[w]) ==> s.threads[w].since <= mark.at + Since(mark, s, w) * service)
  }

  ghost predicate Queued(mark: Mark, s: Pool, service: nat) {
    && |s.taken| == |mark.taken| == |s.threads|
    && 0 <= Gone(mark, s) <= mark.k
    && mark.k - Gone(mark, s) < |s.queue|
    && s.queue[mark.k - Gone(mark, s)] == mark.id
    && (forall w | 0 <= w < |s.threads| :: OnTime(mark, s, service, w))
    && (forall w | 0 <= w < |s.threads| :: !s.threads[w].Exited?)
  }

  function Bound(cfg: Config, service: nat): nat
    requires cfg.workers > 0
  {
    CeilDiv(cfg.depth, cfg.workers) * service
  }

  lemma MulMono(a: int, b: int, s: nat)
    requires a <= b
    ensures a * s <= b * s
  {
    assert (b - a) * s >= 0;
  }

  lemma MulLess(a: int, b: int, s: nat)
    requires a * s < b * s
    ensures a < b
  {
    if b <= a { MulMono(b, a, s); }
  }

  lemma Quotient(a: nat, n: nat)
    requires n > 0
    ensures a / n * n <= a < (a / n + 1) * n
  {
    assert a == a / n * n + a % n;
    assert (a / n + 1) * n == a / n * n + n;
  }

  lemma DivMono(a: nat, b: nat, n: nat)
    requires n > 0 && a <= b
    ensures a / n <= b / n
  {
    Quotient(a, n);
    Quotient(b, n);
    MulLess(a / n, b / n + 1, n);
  }

  lemma OneMoreRound(k: nat, n: nat)
    requires n > 0
    ensures k < n * (k / n + 1)
    ensures k / n + 1 <= (k + n) / n
  {
    Quotient(k, n);
    Quotient(k + n, n);
    assert (k / n + 1) * n == k / n * n + n;
    MulLess(k / n + 1, (k + n) / n + 1, n);
  }

  lemma RoundsBound(k: nat, n: nat, depth: nat)
    requires n > 0 && k < depth
    ensures k < n * (k / n + 1)
    ensures k / n + 1 <= CeilDiv(depth, n)
  {
    OneMoreRound(k, n);
    DivMono(k + n, depth + n - 1, n);
  }

  /** If every worker had taken one more round of jobs, the marked job would be gone. */
  lemma QueuedWithinBound(mark: Mark, s: Pool, service: nat, cfg: Config)
    requires Queued(mark, s, service) && |s.threads| == cfg.workers > 0 && mark.k < cfg.depth
    ensures s.clock <= mark.at + Bound(cfg, service)
  {
    var n, k := cfg.workers, mark.k;
    RoundsBound(k, n, cfg.depth);
    MulMono(k / n + 1, CeilDiv(cfg.depth, n), service);
    if s.clock > mark.at + (k / n + 1) * service {
      forall w | 0 <= w < n ensures mark.taken[w] + (k / n + 1) <= s.taken[w] {
        assert OnTime(mark, s, service, w);
        MulLess(k / n + 1, Since(mark, s, w) + 1, service);
      }
      SumSpread(mark.taken, s.taken, k / n + 1);
    }
  }

  lemma TakeOnTime(cfg: Config, token: Token, s: Pool, step: Step, mark: Mark, service: nat)
    requires Shaped(cfg, s) && Enabled(cfg, s, step) && step.Take?
    requires Queued(mark, s, service) && Gone(mark, s) < mark.k
    ensures Queued(mark, Next(cfg, token, s, step), service)
  {
    var s' := Next(cfg, token, s, step);
    SumUpdate(s.taken, step.w, s.taken[step.w] + 1);
    forall w | 0 <= w < |s.threads| ensures OnTime(mark, s', service, w) {
      assert OnTime(mark, s, service, w);
      if w == step.w {
        MulMono(Since(mark, s, w) + 1, Since(mark, s, w) + 2, service);
      }
    }
  }

  lemma TickOnTime(cfg: Config, token: Token, s: Pool, step: Step, mark: Mark, service: nat)
    requires Shaped(cfg, s) && Enabled(cfg, s, step) && step.Tick? && MayTick(s, service, step.now)
    requires Queued(mark, s, service)
    ensures Queued(mark, Next(cfg, token, s, step), service)
  {
    var s' := Next(cfg, token, s, step);
    forall w | 0 <= w < |s.threads| ensures OnTime(mark, s', service, w) {
      assert OnTime(mark, s, service, w);
      assert Active(s.threads[w]);
      assert (Since(mark, s, w) + 1) * service == Since(mark, s, w) * service + service;
    }
  }

  lemma OtherStepOnTime(cfg: Config, token: Token, s: Pool, step: Step, mark: Mark, service: nat)
    requires Shaped(cfg, s) && Enabled(cfg, s, step) && !step.Tick? && !step.Take? && !step.HandOff?
    requires Queued(mark, s, service)
    ensures Queued(mark, Next(cfg, token, s, step), service)
  {
    var s' := Next(cfg, token, s, step);
    forall w | 0 <= w < |s.threads| ensures OnTime(mark, s', service, w) {
      assert OnTime(mark, s, service, w);
    }
  }

  // ----- After it was taken -----

  /** The marked job is on a worker that took it by `limit`, or answered. */
  ghost predicate TakenBy(s: Pool, id: JobId, limit: Instant) {
    || id in s.done
    || exists w | 0 <= w < |s.threads| :: Holds(s.threads[w], id) && s.threads[w].since <= limit
  }

  lemma TakenStays(cfg: Config, token: Token, s: Pool, step: Step, id: JobId, limit: Instant)
    requires Shaped(cfg, s) && Enabled(cfg, s, step) && TakenBy(s, id, limit)
    ensures TakenBy(Next(cfg, token, s, step), id, limit)
  {
    var s' := Next(cfg, token, s, step);
    if id !in s.done {
      var w :| 0 <= w < |s.threads| && Holds(s.threads[w], id) && s.threads[w].since <= limit;
      if !(step.Reply? && step.w == w) {
        assert Holds(s'.threads[w], id) && s'.threads[w].since == s.threads[w].since;
      }
    }
  }

  ghost predicate Followed(cfg: Config, mark: Mark, s: Pool, service: nat)
    requires cfg.workers > 0
  {
    Queued(mark, s, service) || TakenBy(s, mark.id, mark.at + Bound(cfg, service))
  }

  lemma FollowStep(cfg: Config, token: Token, s: Pool, step: Step, mark: Mark, service: nat)
    requires Shaped(cfg, s) && Enabled(cfg, s, step) && cfg.workers > 0
    requires step.Tick? ==> MayTick(s, service, step.now)
    requires mark.k < cfg.depth
    requires Followed(cfg, mark, s, service)
    ensures Followed(cfg, mark, Next(cfg, token, s, step), service)
  {
    var limit := mark.at + Bound(cfg, service);
    if TakenBy(s, mark.id, limit) {
      TakenStays(cfg, token, s, step, mark.id, limit);
    } else if step.Tick? {
      TickOnTime(cfg, token, s, step, mark, service);
    } else if step.Take? {
      if Gone(mark, s) < mark.k {
        TakeOnTime(cfg, token, s, step, mark, service);
      } else {
        QueuedWithinBound(mark, s, service, cfg);
        var s' := Next(cfg, token, s, step);
        assert Holds(s'.threads[step.w], mark.id) && s'.threads[step.w].since <= limit;
      }
    } else {
      OtherStepOnTime(cfg, token, s, step, mark, service);
    }
  }

  /** Step `i` accepts job `id`. */
  ghost predicate Accepts(r: Run, i: nat, id: JobId) {
    && i < |r.steps| && i + 1 < |r.states|
    && (r.steps[i].TrySend? || r.steps[i].HandOff?)
    && r.steps[i].id == id
    && id in r.states[i + 1].callers
  }

  ghost function MarkAt(s: Pool, id: JobId): Mark
    requires s.queue != []
  {
    Mark(id, |s.queue| - 1, s.clock, s.taken)
  }

  lemma MarkStarts(cfg: Config, s: Pool, service: nat)
    requires Shaped(cfg, s) && Lively(cfg, s) && s.queue != []
    ensures Queued(MarkAt(s, Last(s.queue)), s, service)
  {
    var mark := MarkAt(s, Last(s.queue));
    forall w | 0 <= w < |s.threads| ensures OnTime(mark, s, service, w) {
      assert Since(mark, s, w) == 0;
    }
  }

  lemma {:induction false} FollowQueued(r: Run, service: nat, i: nat, j: nat)
    requires IsRun(r) && Timely(r, service) && i <= j < |r.states| && r.cfg.workers > 0
    requires r.states[i].queue != []
    ensures Followed(r.cfg, MarkAt(r.states[i], Last(r.states[i].queue)), r.states[j], service)
  {
    assert Shaped(r.cfg, r.states[i]) && Lively(r.cfg, r.states[i]) by { ReachableInv(r, i); }
    var mark := MarkAt(r.states[i], Last(r.states[i].queue));
    if i == j {
      MarkStarts(r.cfg, r.states[i], service);
    } else {
      FollowQueued(r, service, i, j - 1);
      assert IsStep(r.cfg, r.token, r.states[j - 1], r.steps[j - 1], r.states[j]);
      FollowStep(r.cfg, r.token, r.states[j - 1], r.steps[j - 1], mark, service);
    }
  }

  lemma {:induction false} FollowHandedOff(r: Run, i: nat, j: nat, id: JobId)
    requires IsRun(r) && Accepts(r, i, id) && r.steps[i].HandOff? && i < j < |r.states|
    ensures TakenBy(r.states[j], id, r.states[i].clock)
  {
    assert IsStep(r.cfg, r.token, r.states[j - 1], r.steps[j - 1], r.states[j]);
    if j == i + 1 {
      assert Holds(r.states[j].threads[r.steps[i].w], id);
    } else {
      FollowHandedOff(r, i, j - 1, id);
      TakenStays(r.cfg, r.token, r.states[j - 1], r.steps[j - 1], id, r.states[i].clock);
    }
  }

  /** From acceptance on, a job is still queued within the bound, or was taken within it. */
  lemma AcceptedIsFollowed(r: Run, service: nat, i: nat, j: nat, id: JobId)
    requires IsRun(r) && Timely(r, service) && Accepts(r, i, id) && i < j < |r.states|
    ensures r.cfg.workers > 0
    ensures var limit := r.states[i].clock + Bound(r.cfg, service);
            TakenBy(r.states[j], id, limit) || (id in r.states[j].queue && r.states[j].clock <= limit)
  {
    var s, s' := r.states[i], r.states[i + 1];
    assert IsStep(r.cfg, r.token, s, r.steps[i], s');
    assert Lively(r.cfg, s') && CallerMatches(s, id) by { ReachableInv(r, i + 1); ReachableInv(r, i); }
    if r.steps[i].HandOff? {
      FollowHandedOff(r, i, j, id);
      if id !in r.states[j].done {
        var w :| 0 <= w < |r.states[j].threads| && Holds(r.states[j].threads[w], id) && r.states[j].threads[w].since <= s.clock;
      }
    } else {
      assert s'.queue == s.queue + [id];
      FollowQueued(r, service, i + 1, j);
      var mark := MarkAt(s', id);
      if Queued(mark, r.states[j], service) {
        assert Shaped(r.cfg, r.states[j]) by { ReachableInv(r, j); }
        QueuedWithinBound(mark, r.states[j], service, r.cfg);
      }
    }
  }

  /** The scheduling bound: whatever the arrivals, every accepted job is started within
      ceil(depth / workers) service times of its acceptance. */
  lemma StartsWithinBound(r: Run, service: nat, i: nat, j: nat, id: JobId)
    requires IsRun(r) && Timely(r, service) && Accepts(r, i, id)
    requires i < j < |r.steps| && r.steps[j].Take? && r.states[j].queue != [] && r.states[j].queue[0] == id
    ensures r.cfg.workers > 0
    ensures r.states[j].clock <= r.states[i].clock + CeilDiv(r.cfg.depth, r.cfg.workers) * service
  {
    AcceptedIsFollowed(r, service, i, j, id);
    assert Conserved(r.states[j]) by { ReachableInv(r, j); }
    QueuedIsNotTaken(r.states[j], id, r.states[i].clock + Bound(r.cfg, service));
  }

  lemma QueuedIsNotTaken(s: Pool, id: JobId, limit: Instant)
    requires Conserved(s) && id in s.queue
    ensures !TakenBy(s, id, limit)
  {
    assert id in multiset(s.queue);
    assert InOnePlace(s, id);
    if TakenBy(s, id, limit) && id !in s.done {
      var w :| 0 <= w < |s.threads| && Holds(s.threads[w], id) && s.threads[w].since <= limit;
      HoldingPositive(s.threads, w, id);
    }
  }

  /** The default depth of two per worker keeps the wait within two service times. */
  lemma DefaultDepthWaitsTwoServiceTimes(r: Run, service: nat, i: nat, j: nat, id: JobId)
    requires IsRun(r) && Timely(r, service) && Accepts(r, i, id)
    requires i < j < |r.steps| && r.steps[j].Take? && r.states[j].queue != [] && r.states[j].queue[0] == id
    requires r.cfg.depth == r.cfg.workers * 2
    ensures r.states[j].clock <= r.states[i].clock + 2 * service
  {
    StartsWithinBound(r, service, i, j, id);
    var n := r.cfg.workers;
    assert n * 2 + n - 1 == n * 2 + (n - 1);
    assert CeilDiv(n * 2, n) == 2;
  }

  // ----- Timeouts -----

  ghost predicate WithinService(s: Pool, service: nat) {
    forall w | 0 <= w < |s.threads| && Active(s.threads[w]) :: s.clock <= s.threads[w].since + service
  }

  lemma {:induction false} ServiceKept(r: Run, service: nat, j: nat)
    requires IsRun(r) && Timely(r, service) && j < |r.states|
    ensures WithinService(r.states[j], service)
  {
    if j > 0 {
      ServiceKept(r, service, j - 1);
      assert IsStep(r.cfg, r.token, r.states[j - 1], r.steps[j - 1], r.states[j]);
      ServiceStep(r.cfg, r.token, r.states[j - 1], r.steps[j - 1], service);
    }
  }

  lemma ServiceStep(cfg: Config, token: Token, s: Pool, step: Step, service: nat)
    requires Shaped(cfg, s) && Enabled(cfg, s, step) && WithinService(s, service)
    requires step.Tick? ==> MayTick(s, service, step.now)
    ensures WithinService(Next(cfg, token, s, step), service)
  {
  }

  lemma WaitingArises(cfg: Config, token: Token, s: Pool, step: Step, id: JobId)
    requires Shaped(cfg, s) && CallerMatches(s, id) && Enabled(cfg, s, step) && IsWaiting(Next(cfg, token, s, step), id)
    ensures var s' := Next(cfg, token, s, step);
            if (step.TrySend? || step.HandOff?) && step.id == id then s'.callers[id].since == s.clock
            else IsWaiting(s, id) && s.callers[id] == s'.callers[id]
  {
  }

  lemma WaiterStep(r: Run, j: nat, id: JobId)
    requires IsRun(r) && j < |r.steps| && IsWaiting(r.states[j + 1], id)
    ensures || (Accepts(r, j, id) && r.states[j].clock == r.states[j + 1].callers[id].since)
            || (IsWaiting(r.states[j], id) && r.states[j].callers[id] == r.states[j + 1].callers[id])
  {
    assert IsStep(r.cfg, r.token, r.states[j], r.steps[j], r.states[j + 1]);
    assert CallerMatches(r.states[j], id) by { ReachableInv(r, j); }
    WaitingArises(r.cfg, r.token, r.states[j], r.steps[j], id);
  }

  lemma {:induction false} WaiterWasAccepted(r: Run, j: nat, id: JobId)
    requires IsRun(r) && j < |r.states| && IsWaiting(r.states[j], id)
    ensures exists i :: 0 <= i < j && Accepts(r, i, id) && r.states[i].clock == r.states[j].callers[id].since
  {
    if j > 0 {
      WaiterStep(r, j - 1, id);
      if IsWaiting(r.states[j - 1], id) && r.states[j - 1].callers[id] == r.states[j].callers[id] {
        WaiterWasAccepted(r, j - 1, id);
      }
    }
  }

  /** A caller still waiting has waited at most the scheduling bound plus one service time. */
  lemma WaitIsBounded(r: Run, service: nat, j: nat, id: JobId)
    requires IsRun(r) && Timely(r, service) && j < |r.states| && IsWaiting(r.states[j], id) && r.cfg.workers > 0
    ensures r.states[j].clock <= r.states[j].callers[id].since + Bound(r.cfg, service) + service
  {
    WaiterWasAccepted(r, j, id);
    var i :| 0 <= i < j && Accepts(r, i, id) && r.states[i].clock == r.states[j].callers[id].since;
    AcceptedIsFollowed(r, service, i, j, id);
    ServiceKept(r, service, j);
    assert CallerMatches(r.states[j], id) by { ReachableInv(r, j); }
  }

  /** If the job timeout exceeds the worst wait plus one service time, no caller in any run
      ever times out: the timeout then fires only when the pool breaks its own assumptions. */
  lemma NoSpuriousTimeouts(r: Run, service: nat, j: nat)
    requires IsRun(r) && Timely(r, service) && j < |r.steps| && r.cfg.workers > 0
    requires r.cfg.timeout > Bound(r.cfg, service) + service
    ensures !r.steps[j].TimeOut?
  {
    assert IsStep(r.cfg, r.token, r.states[j], r.steps[j], r.states[j + 1]);
    if r.steps[j].TimeOut? {
      WaitIsBounded(r, service, j, r.steps[j].id);
    }
  }
}
