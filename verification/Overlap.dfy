/** Overlapping requests: callers, workers and the public key cache interleave freely, and
    still whatever the token answers through the proxy is what the one-session backend would
    have answered, on every token whose objects do not change. */
module Overlap {
  import opened Basics
  import opened Jobs
  import opened Crypto
  import opened Service
  import opened Backends
  import opened Authorization
  import HandleCache
  import KeyCache
  import PoolProtocol
  import PoolRuns

  /** A job is executed against token `h`, with some draw and some luck in reopening. */
  ghost predicate OnToken(h: Hsm, p: PoolProtocol.Pool, step: PoolProtocol.Step)
    requires IsSha256(h.f.sha)
  {
    step.Finish? && step.w < |p.threads| && p.threads[step.w].Busy? && p.threads[step.w].job in p.requests ==>
      exists draw, chance :: step.env == EnvOf(h, draw, chance, p.requests[p.threads[step.w].job])
  }

  ghost predicate IsStepOn(h: Hsm, s: Server, step: Authorization.Step)
    requires IsSha256(h.f.sha)
  {
    step.PoolStep? ==> OnToken(h, s.pool, step.pool)
  }

  ghost predicate IsRunOn(h: Hsm, r: Run)
    requires IsSha256(h.f.sha)
  {
    && IsRun(r) && r.world.sha == h.f.sha && r.world.token == TokenOf(h)
    && forall i | 0 <= i < |r.steps| :: IsStepOn(h, r.states[i], r.steps[i])
  }

  // ----- What jobs answer -----

  /** Some draw makes the token answer `request` so. */
  ghost predicate IsAnswer(h: Hsm, request: JobRequest, result: JobResult)
    requires IsSha256(h.f.sha)
  {
    exists draw, chance :: result == Plain(h, 0, request, draw, chance)
  }

  ghost predicate CoresOk(h: Hsm, p: PoolProtocol.Pool) {
    forall w | 0 <= w < |p.cores| :: HandleCache.Coherent(TokenOf(h), p.cores[w])
  }

  ghost predicate ReplyOk(h: Hsm, p: PoolProtocol.Pool, id: RequestId)
    requires IsSha256(h.f.sha)
  {
    forall result | PoolRuns.OnItsWay(p, id, result) :: id in p.requests && IsAnswer(h, p.requests[id], result)
  }

  lemma NewAnswer(h: Hsm, core: HandleCache.Core, request: JobRequest, env: HandleCache.Env)
    requires Lawful(h) && HandleCache.Coherent(TokenOf(h), core)
    requires exists draw, chance :: env == EnvOf(h, draw, chance, request)
    ensures IsAnswer(h, request, HandleCache.Execute(TokenOf(h), core, request, env).result)
  {
    var draw, chance :| env == EnvOf(h, draw, chance, request);
    ExecuteIsPlain(h, core, request, draw, chance);
    SessionsAlike(h, core.session, 0, request, draw, chance);
  }

  lemma PoolStepReply(h: Hsm, cfg: PoolProtocol.Config, p: PoolProtocol.Pool, step: PoolProtocol.Step, id: RequestId)
    requires Lawful(h) && PoolProtocol.Shaped(cfg, p) && PoolProtocol.Enabled(cfg, p, step) && OnToken(h, p, step)
    requires CoresOk(h, p) && ReplyOk(h, p, id)
    ensures ReplyOk(h, PoolProtocol.Next(cfg, TokenOf(h), p, step), id)
  {
    var p' := PoolProtocol.Next(cfg, TokenOf(h), p, step);
    forall result | PoolRuns.OnItsWay(p', id, result) ensures id in p'.requests && IsAnswer(h, p'.requests[id], result) {
      if !PoolRuns.OnItsWay(p, id, result) {
        PoolRuns.AnswerArises(cfg, TokenOf(h), p, step, id, result);
        NewAnswer(h, p.cores[step.w], p.requests[id], step.env);
      }
      PoolRuns.RequestsKept(cfg, TokenOf(h), p, step, id);
    }
  }

  lemma PoolStepCores(h: Hsm, cfg: PoolProtocol.Config, p: PoolProtocol.Pool, step: PoolProtocol.Step)
    requires PoolProtocol.Shaped(cfg, p) && PoolProtocol.Enabled(cfg, p, step) && CoresOk(h, p)
    ensures CoresOk(h, PoolProtocol.Next(cfg, TokenOf(h), p, step))
  {
    var p' := PoolProtocol.Next(cfg, TokenOf(h), p, step);
    assert |p'.cores| == |p.cores|;
    forall w | 0 <= w < |p'.cores| ensures HandleCache.Coherent(TokenOf(h), p'.cores[w]) {
      PoolRuns.CoherenceStep(cfg, TokenOf(h), p, step, w);
    }
  }

  // ----- What the cache remembers -----

  ghost predicate EntryTrue(h: Hsm, s: KeyCache.Cache, key: Label) {
    key in s.entries ==> IsLookup(h, key, s.entries[key].value)
  }

  predicate IsAnswered(s: KeyCache.Cache, c: RequestId) {
    c in s.calls && (s.calls[c].Answered? || s.calls[c].Settled?)
  }

  ghost predicate CallTrue(h: Hsm, s: KeyCache.Cache, c: RequestId) {
    IsAnswered(s, c) ==> IsLookup(h, s.calls[c].key, s.calls[c].value)
  }

  ghost predicate KeysTrue(h: Hsm, s: KeyCache.Cache) {
    (forall key :: EntryTrue(h, s, key)) && (forall c :: CallTrue(h, s, c))
  }

  lemma CacheStepTrue(h: Hsm, cfg: KeyCache.Config, s: KeyCache.Cache, k: KeyCache.Step)
    requires KeyCache.Enabled(s, k) && KeysTrue(h, s)
    requires k.LoadDone? && k.result.Ok? ==> IsLookup(h, k.key, k.result.value)
    ensures KeysTrue(h, KeyCache.Next(cfg, s, k))
  {
    var s' := KeyCache.Next(cfg, s, k);
    forall key ensures EntryTrue(h, s', key) { assert EntryTrue(h, s, key); }
    forall c ensures CallTrue(h, s', c) {
      assert CallTrue(h, s, c);
      if k.Get? { assert EntryTrue(h, s, s.calls[k.c].key); }
    }
  }

  /** A public key job that the loader turns into a lookup tells what the token has. */
  lemma LoadIsTrue(h: Hsm, key: Label, answer: JobResult)
    requires Lawful(h) && IsAnswer(h, GetPublicKey(key), answer) && LoadPublicKey(answer).Ok?
    ensures IsLookup(h, key, LoadPublicKey(answer).value)
  {
    var draw, chance :| answer == Plain(h, 0, GetPublicKey(key), draw, chance);
    if h.present(Public, key) {
      assert ObjectOf(h, 0, h.handleOf(0, Public, key), Public) == Some(key);
    }
  }

  lemma EndLoadTrue(h: Hsm, x: World, s: Server, key: Label)
    requires Lawful(h) && key in s.keys.loading && KeyCache.LeaderOk(s.keys, key)
    requires var q := s.keys.loading[key]; RequestOk(x, s, q) && ReplyOk(h, s.pool, q) && OutcomeOf(s.pool, q).Some?
    ensures var result := LoadPublicKey(OutcomeOf(s.pool, s.keys.loading[key]).value);
            result.Ok? ==> IsLookup(h, key, result.value)
  {
    var q := s.keys.loading[key];
    var answer := OutcomeOf(s.pool, q).value;
    if LoadPublicKey(answer).Ok? {
      assert PoolRuns.OnItsWay(s.pool, q, answer);
      LoadIsTrue(h, key, answer);
    }
  }

  // ----- Every reachable state -----

  ghost predicate Truthful(h: Hsm, s: Server)
    requires IsSha256(h.f.sha)
  {
    CoresOk(h, s.pool) && (forall id :: ReplyOk(h, s.pool, id)) && KeysTrue(h, s.keys)
  }

  lemma StepTruthful(h: Hsm, x: World, s: Server, step: Authorization.Step)
    requires Lawful(h) && x.token == TokenOf(h) && Authorization.Inv(x, s) && Authorization.Enabled(x, s, step)
    requires IsStepOn(h, s, step) && Truthful(h, s)
    ensures Truthful(h, Authorization.Next(x, s, step))
  {
    if CacheMove(s, step).Some? {
      if step.EndLoad? {
        assert RequestOk(x, s, s.keys.loading[step.key]) && KeyCache.LeaderOk(s.keys, step.key);
        assert ReplyOk(h, s.pool, s.keys.loading[step.key]);
        EndLoadTrue(h, x, s, step.key);
      }
      CacheStepTrue(h, x.cache, s.keys, CacheMove(s, step).value);
    } else if PoolMove(x, s, step).Some? {
      var p := PoolMove(x, s, step).value;
      PoolStepCores(h, x.pool, s.pool, p);
      forall id ensures ReplyOk(h, Authorization.Next(x, s, step).pool, id) {
        assert ReplyOk(h, s.pool, id);
        PoolStepReply(h, x.pool, s.pool, p, id);
      }
    }
  }

  lemma {:induction false} ReachableTruthful(h: Hsm, r: Run, i: nat)
    requires Lawful(h) && IsRunOn(h, r) && i < |r.states|
    ensures Truthful(h, r.states[i])
  {
    if i > 0 {
      ReachableTruthful(h, r, i - 1);
      Authorization.ReachableInv(r, i - 1);
      assert Authorization.IsStep(r.world, r.states[i - 1], r.steps[i - 1], r.states[i]);
      assert IsStepOn(h, r.states[i - 1], r.steps[i - 1]);
      StepTruthful(h, r.world, r.states[i - 1], r.steps[i - 1]);
    }
  }

  // ----- Why a call fails -----

  /** Step `i` makes the call of `q` fail through no fault of the token: its request led the
      load and was cancelled, or the leader's job was shed, refused or timed out. */
  ghost predicate GivesUp(r: Run, i: nat, q: RequestId) {
    && i < |r.steps| && i < |r.states|
    && var s, step := r.states[i], r.steps[i];
       && q in s.keys.calls && s.keys.calls[q].Joined?
       && var key := s.keys.calls[q].key;
          && key in s.keys.loading
          && (|| (step == CacheStep(KeyCache.Abandon(key)) && s.keys.loading[key] == q)
              || (step == EndLoad(key) && PoolGaveUp(s.pool, s.keys.loading[key])))
  }

  predicate PoolGaveUp(p: PoolProtocol.Pool, id: RequestId) {
    id in p.shed || id in p.refused || (id in p.callers && p.callers[id].TimedOut?)
  }

  predicate IsExotic(h: Hsm, key: Label) {
    h.present(Public, key) && h.publicKey(key).Exotic?
  }

  /** The loader fails on the token's own answer only for a key that cannot be encoded. */
  lemma LoadErrorIsExotic(h: Hsm, key: Label, answer: JobResult)
    requires Lawful(h) && IsAnswer(h, GetPublicKey(key), answer)
    ensures LoadPublicKey(answer).Err? <==> IsExotic(h, key)
  {
    var draw, chance :| answer == Plain(h, 0, GetPublicKey(key), draw, chance);
    PlainIsExpected(h, 0, GetPublicKey(key), draw, chance);
  }

  lemma EndLoadFails(h: Hsm, x: World, s: Server, key: Label)
    requires Lawful(h) && key in s.keys.loading && KeyCache.LeaderOk(s.keys, key)
    requires var q := s.keys.loading[key]; RequestOk(x, s, q) && ReplyOk(h, s.pool, q) && OutcomeOf(s.pool, q).Some?
    ensures LoadPublicKey(OutcomeOf(s.pool, s.keys.loading[key]).value).Err? ==>
            PoolGaveUp(s.pool, s.keys.loading[key]) || IsExotic(h, key)
  {
    var q := s.keys.loading[key];
    if !PoolGaveUp(s.pool, q) {
      assert PoolRuns.OnItsWay(s.pool, q, OutcomeOf(s.pool, q).value);
      LoadErrorIsExotic(h, key, OutcomeOf(s.pool, q).value);
    }
  }

  lemma FailingStep(h: Hsm, r: Run, i: nat, q: RequestId)
    requires Lawful(h) && IsRunOn(h, r) && i < |r.steps| && CacheMove(r.states[i], r.steps[i]).Some?
    requires KeyCache.Fails(r.states[i].keys, CacheMove(r.states[i], r.steps[i]).value, q)
    ensures GivesUp(r, i, q) || IsExotic(h, r.states[i].keys.calls[q].key)
  {
    var s, step := r.states[i], r.steps[i];
    assert Authorization.IsStep(r.world, s, step, r.states[i + 1]);
    if step.EndLoad? {
      var leader := s.keys.loading[step.key];
      assert RequestOk(r.world, s, leader) && KeyCache.LeaderOk(s.keys, step.key) by { Authorization.ReachableInv(r, i); }
      assert ReplyOk(h, s.pool, leader) by { ReachableTruthful(h, r, i); }
      EndLoadFails(h, r.world, s, step.key);
    }
  }

  predicate AsksFor(s: Server, q: RequestId, key: Label) {
    q in s.keys.calls && s.keys.calls[q].key == key
  }

  lemma AsksForStep(r: Run, i: nat, q: RequestId, key: Label)
    requires IsRun(r) && i < |r.steps| && AsksFor(r.states[i], q, key)
    ensures AsksFor(r.states[i + 1], q, key)
  {
    CacheMoves(r, i);
    var move := CacheMove(r.states[i], r.steps[i]);
    if move.Some? { KeyCache.FlagStep(r.world.cache, r.states[i].keys, move.value, q); }
  }

  lemma {:induction false} AsksForStays(r: Run, i: nat, j: nat, q: RequestId, key: Label)
    requires IsRun(r) && i <= j < |r.states| && AsksFor(r.states[i], q, key)
    ensures AsksFor(r.states[j], q, key)
    decreases j - i
  {
    if i < j {
      AsksForStep(r, i, q, key);
      AsksForStays(r, i + 1, j, q, key);
    }
  }

  /** On a token whose objects do not change, a call fails only because somebody gave up, or
      because its key cannot be encoded. */
  lemma FailureHasCause(h: Hsm, r: Run, n: nat, q: RequestId)
    requires Lawful(h) && IsRunOn(h, r) && n < |r.states| && q in r.states[n].keys.calls && r.states[n].keys.calls[q].Failed?
    ensures (exists i :: 0 <= i < n && GivesUp(r, i, q)) || IsExotic(h, r.states[n].keys.calls[q].key)
  {
    var k, at := CacheWithin(r, n);
    KeyCache.FailedExactly(k, |k.steps|, q);
    var m :| 0 <= m < |k.steps| && KeyCache.Fails(k.states[m], k.steps[m], q);
    assert IsCacheMove(r, at[m], k.states[m], k.steps[m]);
    FailingStep(h, r, at[m], q);
    AsksForStays(r, at[m], n, q, r.states[at[m]].keys.calls[q].key);
  }

  // ----- Responses -----

  /** What the handler of request `q` returns, once it does. */
  ghost function ResponseOf(h: Hsm, s: Server, q: RequestId): Option<Response>
    requires IsSha256(h.f.sha) && q in s.tickets
  {
    var t := s.tickets[q];
    if UsesCache(t.rpc) then
      if IsAnswered(s.keys, q) then Some(FinishLookup(h, t.rpc, s.keys.calls[q].value))
      else if q in s.keys.calls && s.keys.calls[q].Failed? then Some(Err(InternalCode))
      else None
    else if DirectJob(h.f.sha, t.rpc, t.iv).None? then Some(Err(InvalidArgument))
    else match OutcomeOf(s.pool, q)
      case Some(answer) => Some(FinishJob(t.rpc, Draw(t.iv, 0), answer))
      case None => None
  }

  /** The response rests on what the token says, or on the request alone; otherwise the proxy
      itself gave up, by shedding, refusing or timing out. */
  predicate Complete(sha: Bytes -> Bytes, s: Server, q: RequestId)
    requires q in s.tickets
  {
    var t := s.tickets[q];
    if UsesCache(t.rpc) then IsAnswered(s.keys, q)
    else DirectJob(sha, t.rpc, t.iv).None? || (q in s.pool.callers && s.pool.callers[q].Received?)
  }

  /** For some nonce of the token's own, the one-session backend returns `response`. */
  ghost predicate SingleReturns(h: Hsm, session: HandleCache.Session, t: Ticket, response: Response)
    requires IsSha256(h.f.sha)
  {
    exists nonce :: response == Single(h, session, t.rpc, Draw(t.iv, nonce))
  }

  lemma LookupAgrees(h: Hsm, session: HandleCache.Session, t: Ticket, lookup: KeyCache.Lookup, nonce: nat)
    requires Lawful(h) && UsesCache(t.rpc) && IsLookup(h, t.rpc.key, lookup)
    ensures FinishLookup(h, t.rpc, lookup) == Single(h, session, t.rpc, Draw(t.iv, nonce)) <==> Equivalent(h, t.rpc)
  {
    if t.rpc.GetPublicKeyRpc? {
      if lookup.Found? {
        assert ObjectOf(h, session, h.handleOf(session, Public, t.rpc.key), Public) == Some(t.rpc.key);
      }
    } else {
      var prep := Prepare(h.f.sha, t.rpc.mechanism, t.rpc.input.value);
      PrepareOkExactly(h.f.sha, t.rpc.mechanism, t.rpc.input.value);
      if prep.Ok? {
        VerifyAgrees(h, session, lookup, t.rpc, Draw(t.iv, nonce));
      } else if lookup.Found? {
        PrepareAcceptsExactly(h.f, lookup.spki, t.rpc.mechanism, t.rpc.input.value, t.rpc.signature, prep.error);
      }
    }
  }

  lemma NonceOnly(h: Hsm, session: HandleCache.Session, request: JobRequest, draw: Draw, iv: Bytes, chance: Chance)
    requires IsSha256(h.f.sha)
    ensures Plain(h, session, request, draw, chance) == Plain(h, session, request, Draw(iv, draw.nonce), chance)
  {
  }

  lemma DirectAgrees(h: Hsm, session: HandleCache.Session, t: Ticket, request: JobRequest, answer: JobResult)
    requires Lawful(h) && !UsesCache(t.rpc) && DirectJob(h.f.sha, t.rpc, t.iv) == Some(request) && IsAnswer(h, request, answer)
    ensures SingleReturns(h, session, t, FinishJob(t.rpc, Draw(t.iv, 0), answer))
  {
    var any, chance :| answer == Plain(h, 0, request, any, chance);
    var draw := Draw(t.iv, any.nonce);
    NonceOnly(h, 0, request, any, t.iv, chance);
    SessionsAlike(h, 0, session, request, draw, chance);
    match t.rpc {
      case SignRpc(_, mechanism, input) => SignAgrees(h, session, t.rpc, Prepare(h.f.sha, mechanism, input.value).value, draw, chance);
      case EncryptRpc(_, _, _, _) => EncryptAgrees(h, session, t.rpc, draw, chance);
      case DecryptRpc(_, _, _, _, _) => DecryptAgrees(h, session, t.rpc, draw, chance);
    }
    assert FinishJob(t.rpc, Draw(t.iv, 0), answer) == Single(h, session, t.rpc, Draw(t.iv, any.nonce));
  }

  lemma InvalidAgrees(h: Hsm, session: HandleCache.Session, t: Ticket)
    requires Lawful(h) && !UsesCache(t.rpc) && DirectJob(h.f.sha, t.rpc, t.iv).None?
    ensures SingleReturns(h, session, t, Err(InvalidArgument))
  {
    assert Single(h, session, t.rpc, Draw(t.iv, 0)) == Err(InvalidArgument);
  }

  /** A response is right if, once complete, it is the one-session backend's exactly on the
      equivalent requests. A direct request that is not completed is overloaded exactly if it
      was shed, unavailable exactly if refused, and out of time exactly if its timer fired; on
      the public key path the response is internal, and that of the one-session backend where
      `token` is to blame. */
  ghost predicate ResponseRight(h: Hsm, s: Server, q: RequestId, session: HandleCache.Session, token: bool)
    requires IsSha256(h.f.sha) && q in s.tickets && ResponseOf(h, s, q).Some?
  {
    var t, response := s.tickets[q], ResponseOf(h, s, q).value;
    if Complete(h.f.sha, s, q) then SingleReturns(h, session, t, response) <==> Equivalent(h, t.rpc)
    else if UsesCache(t.rpc) then
      response == Err(InternalCode) && (token ==> (SingleReturns(h, session, t, response) <==> Equivalent(h, t.rpc)))
    else
      && (response == Err(ResourceExhausted) <==> q in s.pool.shed)
      && (response == Err(Unavailable) <==> q in s.pool.refused)
      && (response == Err(DeadlineExceeded) <==> q in s.pool.callers && s.pool.callers[q].TimedOut?)
      && response in {Err(ResourceExhausted), Err(Unavailable), Err(DeadlineExceeded)}
  }

  /** On a key the proxy cannot encode, "internal" is what the one-session backend says too,
      exactly on the equivalent requests. */
  lemma ExoticAgrees(h: Hsm, session: HandleCache.Session, t: Ticket, nonce: nat)
    requires Lawful(h) && UsesCache(t.rpc) && IsExotic(h, t.rpc.key)
    ensures Err(InternalCode) == Single(h, session, t.rpc, Draw(t.iv, nonce)) <==> Equivalent(h, t.rpc)
  {
    SingleIsExpected(h, session, t.rpc, Draw(t.iv, nonce));
    if t.rpc.VerifyRpc? { PrepareOkExactly(h.f.sha, t.rpc.mechanism, t.rpc.input.value); }
  }

  lemma SameForAllNonces(h: Hsm, session: HandleCache.Session, t: Ticket, response: Response)
    requires IsSha256(h.f.sha)
    requires forall nonce :: response == Single(h, session, t.rpc, Draw(t.iv, nonce)) <==> Equivalent(h, t.rpc)
    ensures SingleReturns(h, session, t, response) <==> Equivalent(h, t.rpc)
  {
    assert response == Single(h, session, t.rpc, Draw(t.iv, 0)) <==> Equivalent(h, t.rpc);
  }

  lemma KeyPathRight(h: Hsm, s: Server, q: RequestId, session: HandleCache.Session)
    requires Lawful(h) && q in s.tickets && UsesCache(s.tickets[q].rpc) && ResponseOf(h, s, q).Some?
    requires CallOk(s, q) && CallTrue(h, s.keys, q)
    ensures ResponseRight(h, s, q, session, IsExotic(h, s.tickets[q].rpc.key))
  {
    var t := s.tickets[q];
    if IsAnswered(s.keys, q) {
      var lookup := s.keys.calls[q].value;
      forall nonce ensures FinishLookup(h, t.rpc, lookup) == Single(h, session, t.rpc, Draw(t.iv, nonce)) <==> Equivalent(h, t.rpc) {
        LookupAgrees(h, session, t, lookup, nonce);
      }
      SameForAllNonces(h, session, t, FinishLookup(h, t.rpc, lookup));
    } else if IsExotic(h, t.rpc.key) {
      forall nonce ensures Err(InternalCode) == Single(h, session, t.rpc, Draw(t.iv, nonce)) <==> Equivalent(h, t.rpc) {
        ExoticAgrees(h, session, t, nonce);
      }
      SameForAllNonces(h, session, t, Err(InternalCode));
    }
  }

  lemma DirectPathRight(h: Hsm, s: Server, q: RequestId, session: HandleCache.Session, token: bool)
    requires Lawful(h) && q in s.tickets && !UsesCache(s.tickets[q].rpc) && ResponseOf(h, s, q).Some?
    requires q in s.pool.requests ==> DirectJob(h.f.sha, s.tickets[q].rpc, s.tickets[q].iv) == Some(s.pool.requests[q])
    requires PoolProtocol.CallerMatches(s.pool, q) && PoolProtocol.InOnePlace(s.pool, q) && ReplyOk(h, s.pool, q)
    ensures ResponseRight(h, s, q, session, token)
  {
    var t := s.tickets[q];
    if DirectJob(h.f.sha, t.rpc, t.iv).None? {
      InvalidAgrees(h, session, t);
    } else if q in s.pool.callers && s.pool.callers[q].Received? {
      var answer := s.pool.callers[q].result;
      assert PoolRuns.OnItsWay(s.pool, q, answer);
      DirectAgrees(h, session, t, s.pool.requests[q], answer);
    }
  }

  /** Over every run in which requests overlap in any way, with any evictions, session resets,
      timeouts and cancelled callers, every response is right, whatever session the one-session
      backend has; and a public key request that is not completed has its reason in the run,
      or in a key that only the token can handle. */
  lemma OverlappingRefinesSingle(h: Hsm, r: Run, n: nat, q: RequestId, session: HandleCache.Session)
    requires Lawful(h) && IsRunOn(h, r) && n < |r.states| && q in r.states[n].tickets
    requires ResponseOf(h, r.states[n], q).Some?
    ensures var s := r.states[n];
            && ResponseRight(h, s, q, session, IsExotic(h, s.tickets[q].rpc.key))
            && (UsesCache(s.tickets[q].rpc) && !Complete(h.f.sha, s, q) ==>
                (exists i :: 0 <= i < n && GivesUp(r, i, q)) || IsExotic(h, s.tickets[q].rpc.key))
  {
    var s := r.states[n];
    assert RequestOk(r.world, s, q) && PoolProtocol.CallerMatches(s.pool, q) && PoolProtocol.InOnePlace(s.pool, q) by {
      Authorization.ReachableInv(r, n);
    }
    assert ReplyOk(h, s.pool, q) && CallTrue(h, s.keys, q) by { ReachableTruthful(h, r, n); }
    if UsesCache(s.tickets[q].rpc) {
      KeyPathRight(h, s, q, session);
      if !Complete(h.f.sha, s, q) { FailureHasCause(h, r, n, q); }
    } else {
      DirectPathRight(h, s, q, session, IsExotic(h, s.tickets[q].rpc.key));
    }
  }

  // ----- Responses come -----

  /** Neither the timer of `q` fired nor was its request dropped before state `n`. */
  ghost predicate Patient(r: Run, n: nat, q: RequestId) {
    forall i | 0 <= i < n && i < |r.steps| ::
      r.steps[i] != PoolStep(PoolProtocol.TimeOut(q)) && r.steps[i] != PoolStep(PoolProtocol.DropCaller(q))
  }

  /** The `submit` of a patient caller returns its job's result as soon as the job is done. */
  lemma PatientIsAnswered(r: Run, n: nat, q: RequestId)
    requires IsRun(r) && n < |r.states| && q in r.states[n].pool.done && Patient(r, n, q)
    ensures var p := r.states[n].pool;
            q in p.callers && p.callers[q].Received? && OutcomeOf(p, q) == Some(p.callers[q].result)
  {
    var p, at := PoolWithin(r, n);
    var m := |p.steps|;
    assert PoolProtocol.CallerMatches(p.states[m], q) && PoolProtocol.InOnePlace(p.states[m], q) by { PoolRuns.ReachableInv(p, m); }
    forall i | 0 <= i < m ensures p.steps[i] != PoolProtocol.TimeOut(q) && p.steps[i] != PoolProtocol.DropCaller(q) {
      assert IsPoolMove(r, at[i], p.states[i], p.steps[i]);
      assert r.steps[at[i]] != PoolStep(PoolProtocol.TimeOut(q)) && r.steps[at[i]] != PoolStep(PoolProtocol.DropCaller(q));
    }
    PoolRuns.CallsEndRight(p, m, q);
  }

  /** A direct request whose job is done is completed, if its caller was patient. */
  lemma DirectRequestsComplete(h: Hsm, r: Run, n: nat, q: RequestId)
    requires IsSha256(h.f.sha) && IsRun(r) && n < |r.states| && q in r.states[n].tickets && !UsesCache(r.states[n].tickets[q].rpc)
    requires q in r.states[n].pool.done && Patient(r, n, q)
    ensures Complete(h.f.sha, r.states[n], q) && ResponseOf(h, r.states[n], q).Some?
  {
    PatientIsAnswered(r, n, q);
  }

  /** A load whose job is done can end, if its leader was patient; and unless the key cannot be
      encoded, everyone who waits for it is then answered, with what the token has. */
  lemma LoadsComplete(h: Hsm, r: Run, n: nat, key: Label)
    requires Lawful(h) && IsRunOn(h, r) && n < |r.states| && key in r.states[n].keys.loading && !IsExotic(h, key)
    requires var leader := r.states[n].keys.loading[key]; leader in r.states[n].pool.done && Patient(r, n, leader)
    ensures Authorization.Enabled(r.world, r.states[n], EndLoad(key)) && PoolProtocol.Shaped(r.world.pool, r.states[n].pool)
    ensures var s, s' := r.states[n], Authorization.Next(r.world, r.states[n], EndLoad(key));
            forall q | q in s.keys.calls && s.keys.calls[q].Joined? && s.keys.calls[q].key == key ::
              IsAnswered(s'.keys, q) && IsLookup(h, key, s'.keys.calls[q].value)
  {
    var s := r.states[n];
    var leader := s.keys.loading[key];
    PatientIsAnswered(r, n, leader);
    assert RequestOk(r.world, s, leader) && KeyCache.LeaderOk(s.keys, key) && PoolProtocol.Shaped(r.world.pool, s.pool) &&
           PoolProtocol.CallerMatches(s.pool, leader) by {
      Authorization.ReachableInv(r, n);
    }
    assert ReplyOk(h, s.pool, leader) by { ReachableTruthful(h, r, n); }
    EndLoadFails(h, r.world, s, key);
    EndLoadTrue(h, r.world, s, key);
    forall q | q in s.keys.calls && s.keys.calls[q].Joined? && s.keys.calls[q].key == key
      ensures var s' := Authorization.Next(r.world, s, EndLoad(key));
              IsAnswered(s'.keys, q) && IsLookup(h, key, s'.keys.calls[q].value)
    {
      KeyCache.CallStep(r.world.cache, s.keys, CacheMove(s, EndLoad(key)).value, q);
    }
  }

  predicate IsAnsweredWith(s: Server, q: RequestId, lookup: KeyCache.Lookup) {
    IsAnswered(s.keys, q) && s.keys.calls[q].value == lookup
  }

  lemma AnsweredStep(r: Run, i: nat, q: RequestId, lookup: KeyCache.Lookup)
    requires IsRun(r) && i < |r.steps| && IsAnsweredWith(r.states[i], q, lookup)
    ensures IsAnsweredWith(r.states[i + 1], q, lookup)
  {
    CacheMoves(r, i);
    var s, move := r.states[i].keys, CacheMove(r.states[i], r.steps[i]);
    if move.Some? {
      assert LeadersOk(s) by { Authorization.ReachableInv(r, i); }
      if move.value.Abandon? { assert KeyCache.LeaderOk(s, move.value.key); }
      KeyCache.CallStep(r.world.cache, s, move.value, q);
    }
  }

  lemma {:induction false} AnsweredStays(r: Run, i: nat, n: nat, q: RequestId, lookup: KeyCache.Lookup)
    requires IsRun(r) && i <= n < |r.states| && IsAnsweredWith(r.states[i], q, lookup)
    ensures IsAnsweredWith(r.states[n], q, lookup)
    decreases n - i
  {
    if i < n {
      AnsweredStep(r, i, q, lookup);
      AnsweredStays(r, i + 1, n, q, lookup);
    }
  }

  /** Once its lookup was answered, a public key request is completed for good. */
  lemma AnsweredLookupsComplete(h: Hsm, r: Run, i: nat, n: nat, q: RequestId, lookup: KeyCache.Lookup)
    requires IsSha256(h.f.sha) && IsRun(r) && i <= n < |r.states| && IsAnsweredWith(r.states[i], q, lookup)
    ensures IsAnsweredWith(r.states[n], q, lookup)
    ensures q in r.states[n].tickets && Complete(h.f.sha, r.states[n], q) && ResponseOf(h, r.states[n], q).Some?
  {
    AnsweredStays(r, i, n, q, lookup);
    assert RequestOk(r.world, r.states[n], q) by { Authorization.ReachableInv(r, n); }
  }
}
