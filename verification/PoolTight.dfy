/** The queueing bound is attained: for every number of workers, depth and service time there
    is a timely run in which a job starts exactly that late. All workers are given a job, the
    queue is filled at the same instant, and every job takes the whole service time. */
module PoolTight {
  import opened Basics
  import opened Jobs
  import opened HandleCache
  import opened PoolProtocol
  import opened PoolRuns
  import opened PoolSchedule

  ghost predicate Extends(r: Run, r': Run) {
    r'.cfg == r.cfg && r'.token == r.token && r.steps <= r'.steps && r.states <= r'.states
  }

  ghost predicate IsTimely(r: Run, service: nat) {
    IsRun(r) && Timely(r, service)
  }

  lemma Append(r: Run, step: Step, service: nat) returns (r': Run)
    requires IsTimely(r, service) && Enabled(r.cfg, Last(r.states), step)
    requires step.Tick? ==> MayTick(Last(r.states), service, step.now)
    ensures IsTimely(r', service) && Extends(r, r') && r'.steps == r.steps + [step]
    ensures Shaped(r.cfg, Last(r.states)) && Last(r'.states) == Next(r.cfg, r.token, Last(r.states), step)
  {
    var s := Last(r.states);
    assert Shaped(r.cfg, s) by { ReachableInv(r, |r.steps|); }
    r' := Run(r.cfg, r.token, r.states + [Next(r.cfg, r.token, s, step)], r.steps + [step]);
    forall i | 0 <= i < |r'.steps| ensures IsStep(r'.cfg, r'.token, r'.states[i], r'.steps[i], r'.states[i + 1]) {
      if i < |r.steps| { assert IsStep(r.cfg, r.token, r.states[i], r.steps[i], r.states[i + 1]); }
    }
    assert r'.states[0] == r.states[0];
  }

  /** `m` consecutive job numbers from `a` on. */
  function Ids(a: nat, m: nat): seq<JobId> {
    seq(m, i requires 0 <= i < m => a + i)
  }

  /** At time zero the first `k` workers have begun a job and `m` more jobs are queued. */
  predicate Filling(s: Pool, workers: nat, k: nat, m: nat) {
    && s.open && s.clock == 0 && |s.threads| == workers && k <= workers
    && (forall w | 0 <= w < k :: s.threads[w].Busy? && s.threads[w].since == 0)
    && (forall w | k <= w < workers :: s.threads[w].Idle?)
    && s.queue == Ids(k, m)
    && (forall id | id in s.requests :: id < k + m)
  }

  lemma Offer(r: Run, service: nat, k: nat, m: nat) returns (r': Run)
    requires IsTimely(r, service) && Filling(Last(r.states), r.cfg.workers, k, m) && m < r.cfg.depth && r.cfg.workers > 0
    ensures IsTimely(r', service) && Extends(r, r') && Filling(Last(r'.states), r.cfg.workers, k, m + 1)
    ensures Accepts(r', |r.steps| + 1, k + m) && r'.states[|r.steps| + 1].clock == 0
  {
    var s := Last(r.states);
    var r1 := Append(r, Begin(k + m, GetPublicKey("")), service);
    r' := Append(r1, TrySend(k + m), service);
    assert Last(r'.states).queue == s.queue + [k + m] == Ids(k, m + 1);
    assert r'.states[|r.steps| + 1] == Last(r1.states);
    assert r'.states[|r.steps| + 2] == Last(r'.states);
  }

  lemma {:induction false} Occupy(cfg: Config, token: Token, service: nat, k: nat) returns (r: Run)
    requires k <= cfg.workers && cfg.workers > 0 && cfg.depth > 0
    ensures r.cfg == cfg && IsTimely(r, service) && Filling(Last(r.states), cfg.workers, k, 0)
  {
    if k == 0 {
      var sessions: seq<Session> := seq(cfg.workers, _ => 0);
      r := Run(cfg, token, [Initial(sessions, 0)], []);
      assert r.states[0] == Initial(sessions, 0);
    } else {
      var r0 := Occupy(cfg, token, service, k - 1);
      var r1 := Offer(r0, service, k - 1, 0);
      r := Append(r1, Take(k - 1), service);
    }
  }

  lemma {:induction false} Fill(r: Run, service: nat, m: nat) returns (r': Run, i: nat)
    requires IsTimely(r, service) && r.cfg.workers > 0 && m < r.cfg.depth
    requires Filling(Last(r.states), r.cfg.workers, r.cfg.workers, m)
    ensures r'.cfg == r.cfg && IsTimely(r', service)
    ensures Filling(Last(r'.states), r.cfg.workers, r.cfg.workers, r.cfg.depth)
    ensures Accepts(r', i, r.cfg.workers + r.cfg.depth - 1) && r'.states[i].clock == 0
    decreases r.cfg.depth - m
  {
    r' := Offer(r, service, r.cfg.workers, m);
    i := |r.steps| + 1;
    if m + 1 < r.cfg.depth {
      r', i := Fill(r', service, m + 1);
    }
  }

  /** At time `round * service` the workers before `w` have started their job of this round,
      the others are still on their last, and `depth - taken` jobs are queued. */
  predicate Serving(s: Pool, cfg: Config, service: nat, round: nat, w: nat, taken: nat) {
    && 0 < round && w < cfg.workers && taken < cfg.depth && taken == (round - 1) * cfg.workers + w
    && s.clock == round * service && |s.threads| == cfg.workers
    && (forall v | 0 <= v < cfg.workers ::
          s.threads[v].Busy? && s.threads[v].since == (if v < w then round else round - 1) * service)
    && s.queue == Ids(cfg.workers + taken, cfg.depth - taken)
  }

  /** Worker `w` ends its job and starts the next queued one. */
  lemma Turn(r: Run, service: nat, env: Env, round: nat, w: nat, taken: nat) returns (r': Run)
    requires IsTimely(r, service) && Serving(Last(r.states), r.cfg, service, round, w, taken)
    ensures IsTimely(r', service) && Extends(r, r') && |r'.steps| == |r.steps| + 3
    ensures Turned(Last(r.states), Last(r'.states), w)
    ensures var j := |r.steps| + 2;
            r'.steps[j] == Take(w) && r'.states[j].queue == Last(r.states).queue && r'.states[j].clock == Last(r.states).clock
  {
    var r1 := Append(r, Finish(w, env), service);
    var r2 := Append(r1, Reply(w), service);
    r' := Append(r2, Take(w), service);
    assert r'.states[|r.steps| + 2] == Last(r2.states);
  }

  /** `s'` is `s` after the turn of worker `w`. */
  predicate Turned(s: Pool, s': Pool, w: nat) {
    && w < |s.threads| && s.queue != []
    && s'.clock == s.clock && s'.queue == s.queue[1..]
    && s'.threads == s.threads[w := Busy(s.queue[0], s.clock)]
  }

  lemma NextInRound(s: Pool, s': Pool, cfg: Config, service: nat, round: nat, w: nat, taken: nat)
    requires Serving(s, cfg, service, round, w, taken) && taken + 1 < cfg.depth && w + 1 < cfg.workers && Turned(s, s', w)
    ensures Serving(s', cfg, service, round, w + 1, taken + 1)
  {
    assert s'.queue == Ids(cfg.workers + taken + 1, cfg.depth - taken - 1);
  }

  /** When the last worker has had its turn, the next round begins a service time later. */
  lemma NextRound(s: Pool, r: Run, service: nat, round: nat, w: nat, taken: nat) returns (r': Run)
    requires Serving(s, r.cfg, service, round, w, taken) && taken + 1 < r.cfg.depth && w + 1 == r.cfg.workers
    requires IsTimely(r, service) && Turned(s, Last(r.states), w)
    ensures IsTimely(r', service) && Extends(r, r') && Serving(Last(r'.states), r.cfg, service, round + 1, 0, taken + 1)
  {
    assert (round + 1) * service == round * service + service;
    assert round * r.cfg.workers == (round - 1) * r.cfg.workers + r.cfg.workers;
    r' := Append(r, Tick((round + 1) * service), service);
    assert Last(r'.states).queue == Ids(r.cfg.workers + taken + 1, r.cfg.depth - taken - 1);
  }

  /** The last queued job is started by worker `w` of round `round`. */
  ghost predicate LastStarts(r: Run, cfg: Config, service: nat, j: nat, round: nat, w: nat) {
    && j < |r.steps| && j < |r.states| && r.steps[j].Take?
    && 0 < round && w < cfg.workers && cfg.depth - 1 == (round - 1) * cfg.workers + w
    && r.states[j].queue == Ids(cfg.workers + cfg.depth - 1, 1) && r.states[j].clock == round * service
  }

  lemma {:induction false} Drain(r: Run, service: nat, env: Env, round: nat, w: nat, taken: nat)
    returns (r': Run, j: nat, round': nat, w': nat)
    requires IsTimely(r, service) && Serving(Last(r.states), r.cfg, service, round, w, taken)
    ensures IsTimely(r', service) && Extends(r, r') && |r.steps| <= j && LastStarts(r', r.cfg, service, j, round', w')
    decreases r.cfg.depth - taken
  {
    var r1 := Turn(r, service, env, round, w, taken);
    if taken + 1 == r.cfg.depth {
      r', j, round', w' := r1, |r.steps| + 2, round, w;
    } else if w + 1 < r.cfg.workers {
      NextInRound(Last(r.states), Last(r1.states), r.cfg, service, round, w, taken);
      r', j, round', w' := Drain(r1, service, env, round, w + 1, taken + 1);
    } else {
      var r2 := NextRound(Last(r.states), r1, service, round, w, taken);
      r', j, round', w' := Drain(r2, service, env, round + 1, 0, taken + 1);
    }
  }

  lemma RoundsExactly(depth: nat, n: nat, round: nat, w: nat)
    requires n > 0 && 0 < round && w < n && depth > 0 && depth - 1 == (round - 1) * n + w
    ensures CeilDiv(depth, n) == round
  {
    assert depth + n - 1 == round * n + w;
    Quotient(depth + n - 1, n);
    assert (round + 1) * n == round * n + n;
    MulLess(round, (depth + n - 1) / n + 1, n);
    MulLess((depth + n - 1) / n, round + 1, n);
  }

  /** In `r` job `id`, accepted at step `i`, is taken at step `j` exactly at the bound. */
  ghost predicate AttainsBound(r: Run, service: nat, i: nat, j: nat, id: JobId) {
    && IsTimely(r, service) && Accepts(r, i, id) && r.cfg.workers > 0
    && i < j < |r.steps| && r.steps[j].Take? && r.states[j].queue != [] && r.states[j].queue[0] == id
    && r.states[j].clock == r.states[i].clock + Bound(r.cfg, service)
  }

  lemma LateStart(cfg: Config, token: Token, env: Env, service: nat) returns (r: Run, i: nat, j: nat, id: JobId)
    requires cfg.workers > 0 && cfg.depth > 0
    ensures r.cfg == cfg && AttainsBound(r, service, i, j, id)
  {
    id := cfg.workers + cfg.depth - 1;
    var full, round, w;
    full := Occupy(cfg, token, service, cfg.workers);
    full, i := Fill(full, service, 0);
    var ticked := Append(full, Tick(service), service);
    assert Serving(Last(ticked.states), cfg, service, 1, 0, 0);
    r, j, round, w := Drain(ticked, service, env, 1, 0, 0);
    RoundsExactly(cfg.depth, cfg.workers, round, w);
    assert r.states[i] == full.states[i] && r.states[i + 1] == full.states[i + 1] && r.steps[i] == full.steps[i];
  }

  /** For every pool and every service time some timely run attains the bound, so that no
      smaller one holds of all runs; at the default depth it is two service times. */
  lemma BoundIsTight(cfg: Config, token: Token, env: Env, service: nat)
    requires cfg.workers > 0 && cfg.depth > 0
    ensures exists r: Run, i, j, id :: r.cfg == cfg && AttainsBound(r, service, i, j, id)
    ensures cfg.depth == cfg.workers * 2 ==> Bound(cfg, service) == 2 * service
  {
    var r, i, j, id := LateStart(cfg, token, env, service);
    if cfg.depth == cfg.workers * 2 { RoundsExactly(cfg.depth, cfg.workers, 2, cfg.workers - 1); }
  }
}
