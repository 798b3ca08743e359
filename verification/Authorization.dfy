/** The server as a whole: requests are identified, admitted or refused, and only admitted
    ones reach the public key cache or put a job into the pool. A request makes at most one
    cache call and submits at most one job, so all three go by the request's name. */
module Authorization {
  import opened Basics
  import opened Jobs
  import opened Policy
  import opened Service
  import opened Crypto
  import opened Backends
  import HandleCache
  import Identity
  import KeyCache
  import PoolProtocol
  import PoolRuns

  type RequestId = nat

  /** What stays fixed while the server runs. The policy is compiled from `source`. */
  datatype World = World(
    source: seq<Workload>,
    decode: Bytes -> Option<Identity.Certificate>,
    sha: Bytes -> Bytes,
    pool: PoolProtocol.Config,
    token: HandleCache.Token,
    cache: KeyCache.Config)

  /** An admitted request: the leaf certificate, the identity it was given, what it asks, and
      the IV drawn for it. */
  datatype Ticket = Ticket(leaf: Bytes, who: string, rpc: Rpc, iv: Bytes)

  datatype Server = Server(
    memo: Identity.Memo,
    arrived: set<RequestId>,
    tickets: map<RequestId, Ticket>,
    charged: seq<Ticket>,  // every token the rate limiter took, and for what
    keys: KeyCache.Cache,
    pool: PoolProtocol.Pool)

  datatype Step =
    | Arrive(r: RequestId, chain: Option<seq<Bytes>>, rpc: Rpc, iv: Bytes, allowed: bool, within: bool)
    | Memoize(der: Bytes)
    | Submit(r: RequestId)
    | Resolve(r: RequestId)
    | BeginLoad(r: RequestId)
    | EndLoad(key: Label)
    | CacheStep(cache: KeyCache.Step)
    | PoolStep(pool: PoolProtocol.Step)

  /** Identification through the memo, as in `identify`. */
  function Identified(x: World, memo: Identity.Memo, chain: Option<seq<Bytes>>): Option<string> {
    if chain.None? || chain.value == [] then None
    else if chain.value[0] in memo then Some(memo[chain.value[0]])
    else Identity.Parse(x.decode, chain.value[0])
  }

  function OperationOf(rpc: Rpc): Operation {
    match rpc
    case SignRpc(_, _, _) => MaySign
    case VerifyRpc(_, _, _, _) => MayVerify
    case EncryptRpc(_, _, _, _) => MayEncrypt
    case DecryptRpc(_, _, _, _, _) => MayDecrypt
    case GetPublicKeyRpc(_) => MayGetPublicKey
  }

  function Decision(x: World, s: Server, step: Step): Admission
    requires step.Arrive?
  {
    Admit(step.allowed, Some(Compiled(x.source)), Identified(x, s.memo, step.chain), step.rpc.key, OperationOf(step.rpc), step.within)
  }

  // ----- The handlers -----

  /** The job Sign, Encrypt and Decrypt submit, if the request is valid. */
  function DirectJob(sha: Bytes -> Bytes, rpc: Rpc, iv: Bytes): Option<JobRequest> {
    match rpc
    case SignRpc(key, mechanism, input) =>
      if input.None? then None
      else (match Prepare(sha, mechanism, input.value)
            case Ok(p) => Some(Sign(key, p.algorithm, p.payload))
            case Err(_) => None)
    case EncryptRpc(key, mechanism, plaintext, aad) =>
      if mechanism == AES_GCM then Some(Encrypt(key, plaintext, aad, iv)) else None
    case DecryptRpc(key, mechanism, ciphertext, given, aad) =>
      if mechanism == AES_GCM && |given| == GCM_IV_LEN then Some(Decrypt(key, ciphertext, aad, given)) else None
    case _ => None
  }

  /** Verify and GetPublicKey ask the cache. */
  predicate UsesCache(rpc: Rpc) {
    rpc.GetPublicKeyRpc? || (rpc.VerifyRpc? && rpc.input.Some?)
  }

  /** The only job a request can cause. */
  function JobOf(sha: Bytes -> Bytes, rpc: Rpc, iv: Bytes): Option<JobRequest> {
    if UsesCache(rpc) then Some(GetPublicKey(rpc.key)) else DirectJob(sha, rpc, iv)
  }

  /** What the caller's `submit` returned, once it did. */
  function OutcomeOf(p: PoolProtocol.Pool, id: RequestId): Option<JobResult> {
    if id in p.shed then Some(Err(Overloaded))
    else if id in p.refused then Some(Err(ShuttingDown))
    else if id !in p.callers then None
    else match p.callers[id]
      case Received(result) => Some(result)
      case TimedOut => Some(Err(Timeout))
      case _ => None
  }

  predicate Leads(keys: KeyCache.Cache, r: RequestId, key: Label) {
    key in keys.loading && keys.loading[key] == r
  }

  ghost predicate Enabled(x: World, s: Server, step: Step) {
    match step
    case Arrive(r, _, _, _, _, _) => r !in s.arrived
    case Memoize(der) => Identity.Parse(x.decode, der).Some?
    case Submit(r) =>
      && r in s.tickets && DirectJob(x.sha, s.tickets[r].rpc, s.tickets[r].iv).Some?
      && s.pool.open && r !in s.pool.requests
    case Resolve(r) => r in s.tickets && UsesCache(s.tickets[r].rpc) && r !in s.keys.calls
    // Only the call that leads the load of its key runs the loader.
    case BeginLoad(r) =>
      && r in s.keys.calls && Leads(s.keys, r, s.keys.calls[r].key)
      && s.pool.open && r !in s.pool.requests
    // The load ends when the loader's `submit` has returned.
    case EndLoad(key) => key in s.keys.loading && OutcomeOf(s.pool, s.keys.loading[key]).Some?
    case CacheStep(k) => !k.Probe? && !k.LoadDone? && KeyCache.Enabled(s.keys, k)
    case PoolStep(p) => !p.Begin? && PoolProtocol.Shaped(x.pool, s.pool) && PoolProtocol.Enabled(x.pool, s.pool, p)
  }

  /** What a step does to the cache, if anything. */
  function CacheMove(s: Server, step: Step): Option<KeyCache.Step> {
    match step
    case Resolve(r) => if r in s.tickets then Some(KeyCache.Probe(r, s.tickets[r].rpc.key)) else None
    case EndLoad(key) =>
      if key in s.keys.loading && OutcomeOf(s.pool, s.keys.loading[key]).Some?
      then Some(KeyCache.LoadDone(key, LoadPublicKey(OutcomeOf(s.pool, s.keys.loading[key]).value))) else None
    case CacheStep(k) => Some(k)
    case _ => None
  }

  /** What a step does to the pool, if anything. */
  function PoolMove(x: World, s: Server, step: Step): Option<PoolProtocol.Step> {
    match step
    case Submit(r) =>
      if r in s.tickets && DirectJob(x.sha, s.tickets[r].rpc, s.tickets[r].iv).Some?
      then Some(PoolProtocol.Begin(r, DirectJob(x.sha, s.tickets[r].rpc, s.tickets[r].iv).value)) else None
    case BeginLoad(r) => if r in s.keys.calls then Some(PoolProtocol.Begin(r, GetPublicKey(s.keys.calls[r].key))) else None
    case PoolStep(p) => Some(p)
    case _ => None
  }

  function AfterArrive(x: World, s: Server, step: Step): Server
    requires step.Arrive?
  {
    var d := Decision(x, s, step);
    var seen := s.(arrived := s.arrived + {step.r});
    if d.charged.None? || step.chain.None? || step.chain.value == [] then seen
    else
      var t := Ticket(step.chain.value[0], d.charged.value, step.rpc, step.iv);
      seen.(charged := s.charged + [t], tickets := if d.result.Ok? then s.tickets[step.r := t] else s.tickets)
  }

  ghost function Next(x: World, s: Server, step: Step): Server
    requires PoolProtocol.Shaped(x.pool, s.pool) && Enabled(x, s, step)
  {
    if step.Arrive? then AfterArrive(x, s, step)
    else if step.Memoize? then s.(memo := Identity.Remember(s.memo, step.der, Identity.Parse(x.decode, step.der).value))
    else if CacheMove(s, step).Some? then s.(keys := KeyCache.Next(x.cache, s.keys, CacheMove(s, step).value))
    else s.(pool := PoolProtocol.Next(x.pool, x.token, s.pool, PoolMove(x, s, step).value))
  }

  function Initial(sessions: seq<HandleCache.Session>, now: Instant): Server {
    Server(map[], {}, map[], [], KeyCache.Initial(now), PoolProtocol.Initial(sessions, now))
  }

  // ----- Invariants -----

  /** The policy source grants `who` what `rpc` asks for, each request its own operation. */
  ghost predicate Permits(source: seq<Workload>, who: string, rpc: Rpc) {
    match rpc
    case SignRpc(key, _, _) => Granted(source, who, key, MaySign)
    case VerifyRpc(key, _, _, _) => Granted(source, who, key, MayVerify)
    case EncryptRpc(key, _, _, _) => Granted(source, who, key, MayEncrypt)
    case DecryptRpc(key, _, _, _, _) => Granted(source, who, key, MayDecrypt)
    case GetPublicKeyRpc(key) => Granted(source, who, key, MayGetPublicKey)
  }

  /** The request behind ticket `t` was identified by its certificate, and the policy source
      grants it. */
  ghost predicate Authorized(x: World, t: Ticket) {
    Identity.Parse(x.decode, t.leaf) == Some(t.who) && Permits(x.source, t.who, t.rpc)
  }

  /** The policy source grants `who` the operation behind a job: that of the job itself, or,
      for a public key, that of the request that asks for it. */
  ghost predicate JobPermitted(source: seq<Workload>, who: string, job: JobRequest, rpc: Rpc) {
    match job
    case Sign(key, _, _) => Granted(source, who, key, MaySign)
    case Encrypt(key, _, _, _) => Granted(source, who, key, MayEncrypt)
    case Decrypt(key, _, _, _) => Granted(source, who, key, MayDecrypt)
    case GetPublicKey(key) =>
      || (rpc.VerifyRpc? && Granted(source, who, key, MayVerify))
      || (rpc.GetPublicKeyRpc? && Granted(source, who, key, MayGetPublicKey))
    case Verify(_, _, _, _) => false
  }

  ghost predicate TicketOk(x: World, s: Server, r: RequestId) {
    r in s.tickets ==> r in s.arrived && Authorized(x, s.tickets[r])
  }

  ghost predicate CallOk(s: Server, r: RequestId) {
    r in s.keys.calls ==> r in s.tickets && UsesCache(s.tickets[r].rpc) && s.keys.calls[r].key == s.tickets[r].rpc.key
  }

  /** A job is the one its request's handler submits; a public key job was submitted by the
      loader, so its call is past its lookup and, while it waits, leads the load. */
  ghost predicate JobOk(x: World, s: Server, r: RequestId) {
    r in s.pool.requests ==>
      && r in s.tickets && JobOf(x.sha, s.tickets[r].rpc, s.tickets[r].iv) == Some(s.pool.requests[r])
      && (UsesCache(s.tickets[r].rpc) ==>
          && r in s.keys.calls && !s.keys.calls[r].Probed?
          && (s.keys.calls[r].Joined? ==> Leads(s.keys, r, s.keys.calls[r].key)))
  }

  ghost predicate RequestOk(x: World, s: Server, r: RequestId) {
    TicketOk(x, s, r) && CallOk(s, r) && JobOk(x, s, r)
  }

  ghost predicate Inv(x: World, s: Server) {
    && Identity.Sound(x.decode, s.memo)
    && PoolProtocol.Inv(x.pool, s.pool)
    && KeyCache.Inv(x.cache, s.keys)
    && (forall i | 0 <= i < |s.charged| :: Authorized(x, s.charged[i]))
    && (forall r :: RequestOk(x, s, r))
  }

  lemma ArriveAuthorized(x: World, s: Server, step: Step)
    requires step.Arrive? && Identity.Sound(x.decode, s.memo)
    ensures var d := Decision(x, s, step);
            && (d.result.Ok? ==> d.charged.Some?)
            && (d.charged.Some? ==>
                && step.chain.Some? && step.chain.value != []
                && Authorized(x, Ticket(step.chain.value[0], d.charged.value, step.rpc, step.iv)))
  {
    AdmitsExactly(step.allowed, x.source, Identified(x, s.memo, step.chain), step.rpc.key, OperationOf(step.rpc), step.within);
  }

  lemma ArriveOk(x: World, s: Server, step: Step, r: RequestId)
    requires step.Arrive? && step.r !in s.arrived && Identity.Sound(x.decode, s.memo) && RequestOk(x, s, r)
    ensures RequestOk(x, AfterArrive(x, s, step), r)
  {
    ArriveAuthorized(x, s, step);
  }

  ghost predicate LeadersOk(keys: KeyCache.Cache) {
    forall key :: KeyCache.LeaderOk(keys, key)
  }

  /** What a cache step other than a new probe does to one call. */
  lemma CacheStepCall(cfg: KeyCache.Config, s: KeyCache.Cache, k: KeyCache.Step, r: RequestId)
    requires KeyCache.Enabled(s, k) && !k.Probe? && r in s.calls
    requires LeadersOk(s)
    ensures var s' := KeyCache.Next(cfg, s, k);
            && r in s'.calls && s'.calls[r].key == s.calls[r].key
            && (!s.calls[r].Probed? && !s.calls[r].Joined? ==> !s'.calls[r].Probed? && !s'.calls[r].Joined?)
            && (s.calls[r].Joined? && Leads(s, r, s.calls[r].key) ==>
                && !s'.calls[r].Probed?
                && (s'.calls[r].Joined? ==> Leads(s', r, s'.calls[r].key)))
  {
    assert KeyCache.LeaderOk(s, s.calls[r].key);
    if k.LoadDone? || k.Abandon? { assert KeyCache.LeaderOk(s, k.key); }
  }

  lemma CacheMoveOk(x: World, s: Server, k: KeyCache.Step, r: RequestId)
    requires KeyCache.Enabled(s.keys, k) && KeyCache.Inv(x.cache, s.keys) && RequestOk(x, s, r)
    requires k.Probe? ==> k.c in s.tickets && UsesCache(s.tickets[k.c].rpc) && k.key == s.tickets[k.c].rpc.key
    ensures RequestOk(x, s.(keys := KeyCache.Next(x.cache, s.keys, k)), r)
  {
    if r in s.keys.calls && !k.Probe? {
      CacheStepCall(x.cache, s.keys, k, r);
    }
    var s' := s.(keys := KeyCache.Next(x.cache, s.keys, k));
    assert !k.Probe? && r in s'.keys.calls ==> r in s.keys.calls;
  }

  lemma PoolKeepsRequests(cfg: PoolProtocol.Config, token: HandleCache.Token, s: PoolProtocol.Pool, p: PoolProtocol.Step)
    requires PoolProtocol.Shaped(cfg, s) && PoolProtocol.Enabled(cfg, s, p)
    ensures PoolProtocol.Next(cfg, token, s, p).requests == if p.Begin? then s.requests[p.id := p.request] else s.requests
  {
  }

  lemma PoolMoveOk(x: World, s: Server, p: PoolProtocol.Step, r: RequestId)
    requires PoolProtocol.Shaped(x.pool, s.pool) && PoolProtocol.Enabled(x.pool, s.pool, p) && RequestOk(x, s, r)
    requires p.Begin? && p.id == r ==>
             && r in s.tickets && JobOf(x.sha, s.tickets[r].rpc, s.tickets[r].iv) == Some(p.request)
             && (UsesCache(s.tickets[r].rpc) ==>
                 && r in s.keys.calls && s.keys.calls[r].Joined? && Leads(s.keys, r, s.keys.calls[r].key))
    ensures RequestOk(x, s.(pool := PoolProtocol.Next(x.pool, x.token, s.pool, p)), r)
  {
    PoolKeepsRequests(x.pool, x.token, s.pool, p);
  }

  lemma LeaderIsWaiting(keys: KeyCache.Cache, r: RequestId, key: Label)
    requires KeyCache.LeaderOk(keys, key) && Leads(keys, r, key)
    ensures r in keys.calls && keys.calls[r].Joined? && keys.calls[r].key == key
  {
  }

  lemma StepRequestOk(x: World, s: Server, step: Step, r: RequestId)
    requires Inv(x, s) && Enabled(x, s, step)
    ensures RequestOk(x, Next(x, s, step), r)
  {
    assert RequestOk(x, s, r);
    match step {
      case Arrive(_, _, _, _, _, _) => ArriveOk(x, s, step, r);
      case Memoize(_) =>
      case Resolve(_) => CacheMoveOk(x, s, CacheMove(s, step).value, r);
      case EndLoad(_) => CacheMoveOk(x, s, CacheMove(s, step).value, r);
      case CacheStep(_) => CacheMoveOk(x, s, CacheMove(s, step).value, r);
      case Submit(_) => PoolMoveOk(x, s, PoolMove(x, s, step).value, r);
      case PoolStep(_) => PoolMoveOk(x, s, PoolMove(x, s, step).value, r);
      case BeginLoad(q) =>
        assert KeyCache.LeaderOk(s.keys, s.keys.calls[q].key);
        LeaderIsWaiting(s.keys, q, s.keys.calls[q].key);
        PoolMoveOk(x, s, PoolMove(x, s, step).value, r);
    }
  }

  lemma StepParts(x: World, s: Server, step: Step)
    requires Inv(x, s) && Enabled(x, s, step)
    ensures var s' := Next(x, s, step);
            && Identity.Sound(x.decode, s'.memo)
            && PoolProtocol.Inv(x.pool, s'.pool)
            && KeyCache.Inv(x.cache, s'.keys)
            && (forall i | 0 <= i < |s'.charged| :: Authorized(x, s'.charged[i]))
  {
    if step.Arrive? {
      ArriveAuthorized(x, s, step);
    } else if step.Memoize? {
      Identity.RememberSound(x.decode, s.memo, step.der, Identity.Parse(x.decode, step.der).value);
    } else if CacheMove(s, step).Some? {
      KeyCache.StepKeepsInv(x.cache, s.keys, CacheMove(s, step).value);
    } else {
      PoolProtocol.StepKeepsInv(x.pool, x.token, s.pool, PoolMove(x, s, step).value);
    }
  }

  lemma StepKeepsInv(x: World, s: Server, step: Step)
    requires Inv(x, s) && Enabled(x, s, step)
    ensures Inv(x, Next(x, s, step))
  {
    StepParts(x, s, step);
    forall r ensures RequestOk(x, Next(x, s, step), r) { StepRequestOk(x, s, step, r); }
  }

  // ----- Runs -----

  datatype Run = Run(world: World, states: seq<Server>, steps: seq<Step>)

  ghost predicate IsStep(x: World, s: Server, step: Step, s': Server) {
    PoolProtocol.Shaped(x.pool, s.pool) && Enabled(x, s, step) && s' == Next(x, s, step)
  }

  ghost predicate IsRun(r: Run) {
    && |r.states| == |r.steps| + 1
    && (exists sessions, now :: |sessions| == r.world.pool.workers && r.states[0] == Initial(sessions, now))
    && (forall i | 0 <= i < |r.steps| :: IsStep(r.world, r.states[i], r.steps[i], r.states[i + 1]))
  }

  lemma InitialInv(x: World, sessions: seq<HandleCache.Session>, now: Instant)
    requires |sessions| == x.pool.workers
    ensures Inv(x, Initial(sessions, now))
  {
    PoolProtocol.InitialInv(sessions, now, x.pool);
    forall t ensures KeyCache.CallsOf(KeyCache.Initial(now).calls, t) == {} {}
  }

  lemma {:induction false} ReachableInv(r: Run, i: nat)
    requires IsRun(r) && i < |r.states|
    ensures Inv(r.world, r.states[i])
  {
    if i == 0 {
      var sessions, now :| |sessions| == r.world.pool.workers && r.states[0] == Initial(sessions, now);
      InitialInv(r.world, sessions, now);
    } else {
      ReachableInv(r, i - 1);
      assert IsStep(r.world, r.states[i - 1], r.steps[i - 1], r.states[i]);
      StepKeepsInv(r.world, r.states[i - 1], r.steps[i - 1]);
    }
  }

  /** In every run, every job the pool was ever given is the one the handler of its request
      submits, and the policy source grants that request's operation on that label to the
      identity in its certificate; so it is with every use of the public key cache and every
      token the rate limiter takes. */
  lemma AuthorizedWorkOnly(r: Run, i: nat, q: RequestId)
    requires IsRun(r) && i < |r.states|
    ensures var s := r.states[i];
            q in s.pool.requests ==>
              && q in s.tickets && Authorized(r.world, s.tickets[q])
              && JobOf(r.world.sha, s.tickets[q].rpc, s.tickets[q].iv) == Some(s.pool.requests[q])
              && s.pool.requests[q].key == s.tickets[q].rpc.key
              && JobPermitted(r.world.source, s.tickets[q].who, s.pool.requests[q], s.tickets[q].rpc)
    ensures var s := r.states[i];
            q in s.keys.calls ==>
              && q in s.tickets && Authorized(r.world, s.tickets[q])
              && UsesCache(s.tickets[q].rpc) && s.keys.calls[q].key == s.tickets[q].rpc.key
              && JobPermitted(r.world.source, s.tickets[q].who, GetPublicKey(s.keys.calls[q].key), s.tickets[q].rpc)
    ensures forall k | 0 <= k < |r.states[i].charged| :: Authorized(r.world, r.states[i].charged[k])
  {
    ReachableInv(r, i);
    assert RequestOk(r.world, r.states[i], q);
  }

  // ----- Admission -----

  /** Who the certificate of an arriving request says it is. */
  function Claimed(x: World, step: Step): Option<string>
    requires step.Arrive?
  {
    if step.chain.None? || step.chain.value == [] then None else Identity.Parse(x.decode, step.chain.value[0])
  }

  ghost predicate IsPermitted(x: World, step: Step)
    requires step.Arrive?
  {
    Claimed(x, step).Some? && Permits(x.source, Claimed(x, step).value, step.rpc)
  }

  /** In every run a request is let in exactly if its certificate names someone whom the policy
      source grants what it asks for, while circuit and share allow it; exactly the permitted
      ones are charged, and each refusal has its own code. */
  lemma AdmittedExactly(r: Run, i: nat)
    requires IsRun(r) && i < |r.steps| && r.steps[i].Arrive?
    ensures var x, step, s, s' := r.world, r.steps[i], r.states[i], r.states[i + 1];
            var permitted, result := IsPermitted(x, step), Decision(x, s, step).result;
            && (step.r in s'.tickets <==> step.allowed && step.within && permitted)
            && (step.r in s'.tickets ==>
                s'.tickets[step.r] == Ticket(step.chain.value[0], Claimed(x, step).value, step.rpc, step.iv))
            && s'.charged == (if step.allowed && permitted
                              then s.charged + [Ticket(step.chain.value[0], Claimed(x, step).value, step.rpc, step.iv)]
                              else s.charged)
            && (result.Ok? <==> step.r in s'.tickets)
            && (result == Err(Unavailable) <==> !step.allowed)
            && (result == Err(Unauthenticated) <==> step.allowed && Claimed(x, step).None?)
            && (result == Err(PermissionDenied) <==> step.allowed && Claimed(x, step).Some? && !permitted)
            && (result == Err(ResourceExhausted) <==> step.allowed && permitted && !step.within)
  {
    var x, step, s := r.world, r.steps[i], r.states[i];
    assert IsStep(x, s, step, r.states[i + 1]);
    assert Identity.Sound(x.decode, s.memo) && TicketOk(x, s, step.r) by {
      ReachableInv(r, i);
      assert RequestOk(x, s, step.r);
    }
    assert Identified(x, s.memo, step.chain) == Claimed(x, step);
    AdmitsExactly(step.allowed, x.source, Claimed(x, step), step.rpc.key, OperationOf(step.rpc), step.within);
  }

  /** An admitted request can go on: a valid direct one can submit its job, a public key request
      can ask the cache, and the leader of a load can submit the loader's job, each as long as
      it has not and the pool is open; and a job that was counted can be offered. */
  lemma AdmittedCanProceed(r: Run, n: nat, q: RequestId)
    requires IsRun(r) && n < |r.states| && q in r.states[n].tickets
    ensures var x, s, t := r.world, r.states[n], r.states[n].tickets[q];
            && (UsesCache(t.rpc) && q !in s.keys.calls ==> Enabled(x, s, Resolve(q)))
            && (!UsesCache(t.rpc) && IsValid(t.rpc) && s.pool.open && q !in s.pool.requests ==> Enabled(x, s, Submit(q)))
            && (Leads(s.keys, q, t.rpc.key) && s.pool.open && q !in s.pool.requests ==> Enabled(x, s, BeginLoad(q)))
            && (q in s.pool.submitting ==> Enabled(x, s, PoolStep(PoolProtocol.TrySend(q))))
  {
    var s, t := r.states[n], r.states[n].tickets[q];
    assert RequestOk(r.world, s, q) && KeyCache.LeaderOk(s.keys, t.rpc.key) && PoolProtocol.Shaped(r.world.pool, s.pool) by {
      ReachableInv(r, n);
    }
    if t.rpc.SignRpc? && IsValid(t.rpc) { PrepareOkExactly(r.world.sha, t.rpc.mechanism, t.rpc.input.value); }
  }

  // ----- Refused requests -----

  lemma RefusedStays(x: World, s: Server, step: Step, q: RequestId)
    requires PoolProtocol.Shaped(x.pool, s.pool) && Enabled(x, s, step) && q in s.arrived && q !in s.tickets
    ensures q in Next(x, s, step).arrived && q !in Next(x, s, step).tickets
  {
  }

  lemma {:induction false} RefusedForever(r: Run, i: nat, j: nat, q: RequestId)
    requires IsRun(r) && i <= j < |r.states| && q in r.states[i].arrived && q !in r.states[i].tickets
    ensures q in r.states[j].arrived && q !in r.states[j].tickets
  {
    if i < j {
      RefusedForever(r, i, j - 1, q);
      assert IsStep(r.world, r.states[j - 1], r.steps[j - 1], r.states[j]);
      RefusedStays(r.world, r.states[j - 1], r.steps[j - 1], q);
    }
  }

  /** A request refused at admission, for whatever reason, touches neither the pool nor the
      cache: not in the step that refuses it, and not ever after. */
  lemma RefusedLeavesNoTrace(r: Run, i: nat, j: nat)
    requires IsRun(r) && i < j < |r.states| && r.steps[i].Arrive?
    requires Decision(r.world, r.states[i], r.steps[i]).result.Err?
    ensures r.states[i + 1].pool == r.states[i].pool && r.states[i + 1].keys == r.states[i].keys
    ensures r.steps[i].r !in r.states[j].pool.requests && r.steps[i].r !in r.states[j].keys.calls
  {
    var q := r.steps[i].r;
    assert IsStep(r.world, r.states[i], r.steps[i], r.states[i + 1]);
    ReachableInv(r, i);
    assert RequestOk(r.world, r.states[i], q);
    RefusedForever(r, i + 1, j, q);
    ReachableInv(r, j);
    assert RequestOk(r.world, r.states[j], q);
  }

  // ----- Requests answered by the cache -----

  /** The call of `q` is over or was never a leader's, and no job was submitted for it. */
  ghost predicate Served(s: Server, q: RequestId) {
    && q in s.keys.calls && !s.keys.calls[q].Probed? && !s.keys.calls[q].Joined?
    && q in s.arrived && q in s.tickets && UsesCache(s.tickets[q].rpc) && q !in s.pool.requests
  }

  lemma ServedStays(x: World, s: Server, step: Step, q: RequestId)
    requires PoolProtocol.Shaped(x.pool, s.pool) && Enabled(x, s, step) && Served(s, q)
    requires LeadersOk(s.keys)
    ensures Served(Next(x, s, step), q)
  {
    if CacheMove(s, step).Some? && !step.Resolve? {
      CacheStepCall(x.cache, s.keys, CacheMove(s, step).value, q);
    } else if PoolMove(x, s, step).Some? {
      if step.BeginLoad? {
        assert KeyCache.LeaderOk(s.keys, s.keys.calls[step.r].key);
        LeaderIsWaiting(s.keys, step.r, s.keys.calls[step.r].key);
      }
      PoolKeepsRequests(x.pool, x.token, s.pool, PoolMove(x, s, step).value);
    }
  }

  lemma ServedRunStep(r: Run, i: nat, q: RequestId)
    requires IsRun(r) && i < |r.steps| && Served(r.states[i], q)
    ensures Served(r.states[i + 1], q)
  {
    assert IsStep(r.world, r.states[i], r.steps[i], r.states[i + 1]);
    assert LeadersOk(r.states[i].keys) by { ReachableInv(r, i); }
    ServedStays(r.world, r.states[i], r.steps[i], q);
  }

  lemma {:induction false} ServedForever(r: Run, i: nat, j: nat, q: RequestId)
    requires IsRun(r) && i <= j < |r.states| && Served(r.states[i], q)
    ensures Served(r.states[j], q)
  {
    if i < j {
      ServedForever(r, i, j - 1, q);
      ServedRunStep(r, j - 1, q);
    }
  }

  /** A request whose lookup finds its key cached never causes a job, before or after. */
  lemma CacheHitCausesNoJob(r: Run, i: nat, j: nat, q: RequestId)
    requires IsRun(r) && i < |r.steps| && j < |r.states|
    requires r.steps[i] == CacheStep(KeyCache.Get(q)) && q in r.states[i].keys.calls
    requires KeyCache.Live(r.world.cache, r.states[i].keys, r.states[i].keys.calls[q].key)
    ensures q !in r.states[j].pool.requests
  {
    assert IsStep(r.world, r.states[i], r.steps[i], r.states[i + 1]);
    ReachableInv(r, i);
    assert RequestOk(r.world, r.states[i], q);
    if i < j {
      ServedForever(r, i + 1, j, q);
    } else {
      RequestsOnlyGrow(r, j, i, q);
    }
  }

  lemma {:induction false} RequestsOnlyGrow(r: Run, i: nat, j: nat, q: RequestId)
    requires IsRun(r) && i <= j < |r.states|
    ensures q in r.states[i].pool.requests ==> q in r.states[j].pool.requests
  {
    if i < j {
      RequestsOnlyGrow(r, i, j - 1, q);
      assert IsStep(r.world, r.states[j - 1], r.steps[j - 1], r.states[j]);
      var s, step := r.states[j - 1], r.steps[j - 1];
      if PoolMove(r.world, s, step).Some? {
        PoolKeepsRequests(r.world.pool, r.world.token, s.pool, PoolMove(r.world, s, step).value);
      }
    }
  }

  // ----- The pool and the cache within the server -----

  /** The first `n` steps of a server run as a run of its pool: `at` says which step of the
      server each step of the pool is. */
  ghost predicate IsPoolPart(r: Run, n: nat, p: PoolRuns.Run, at: seq<nat>) {
    && n < |r.states| && n <= |r.steps|
    && p.cfg == r.world.pool && p.token == r.world.token && PoolRuns.IsRun(p)
    && Last(p.states) == r.states[n].pool && |at| == |p.steps|
    && (forall m | 0 <= m < |at| :: at[m] < n && IsPoolMove(r, at[m], p.states[m], p.steps[m]))
    && (forall i | 0 <= i < n && PoolMove(r.world, r.states[i], r.steps[i]).Some? :: i in at)
  }

  /** Step `i` of the server is `move` of its pool, from pool state `s`. */
  ghost predicate IsPoolMove(r: Run, i: nat, s: PoolProtocol.Pool, move: PoolProtocol.Step) {
    i < |r.steps| && i < |r.states| && s == r.states[i].pool && PoolMove(r.world, r.states[i], r.steps[i]) == Some(move)
  }

  lemma PoolMoves(r: Run, i: nat)
    requires IsRun(r) && i < |r.steps|
    ensures var move, s, s' := PoolMove(r.world, r.states[i], r.steps[i]), r.states[i].pool, r.states[i + 1].pool;
            if move.None? then s' == s
            else && PoolProtocol.Shaped(r.world.pool, s) && PoolProtocol.Enabled(r.world.pool, s, move.value)
                 && s' == PoolProtocol.Next(r.world.pool, r.world.token, s, move.value)
  {
    assert IsStep(r.world, r.states[i], r.steps[i], r.states[i + 1]);
  }

  lemma CacheMoves(r: Run, i: nat)
    requires IsRun(r) && i < |r.steps|
    ensures var move, s, s' := CacheMove(r.states[i], r.steps[i]), r.states[i].keys, r.states[i + 1].keys;
            if move.None? then s' == s
            else KeyCache.Enabled(s, move.value) && s' == KeyCache.Next(r.world.cache, s, move.value)
  {
    assert IsStep(r.world, r.states[i], r.steps[i], r.states[i + 1]);
  }

  lemma {:induction false} PoolWithin(r: Run, n: nat) returns (p: PoolRuns.Run, at: seq<nat>)
    requires IsRun(r) && n < |r.states|
    ensures IsPoolPart(r, n, p, at)
  {
    if n == 0 {
      var sessions, now :| |sessions| == r.world.pool.workers && r.states[0] == Initial(sessions, now);
      p, at := PoolRuns.Run(r.world.pool, r.world.token, [r.states[0].pool], []), [];
      assert p.states[0] == PoolProtocol.Initial(sessions, now);
    } else {
      p, at := PoolWithin(r, n - 1);
      p, at := PoolWithinStep(r, n - 1, p, at);
    }
  }

  lemma PoolWithinStep(r: Run, n: nat, p: PoolRuns.Run, at: seq<nat>) returns (p': PoolRuns.Run, at': seq<nat>)
    requires IsRun(r) && n < |r.steps| && IsPoolPart(r, n, p, at)
    ensures IsPoolPart(r, n + 1, p', at')
  {
    PoolMoves(r, n);
    var move := PoolMove(r.world, r.states[n], r.steps[n]);
    if move.Some? {
      p' := PoolAppend(p, move.value);
      at' := at + [n];
      assert Last(p.states) == p.states[|p.steps|] && IsPoolMove(r, n, Last(p.states), move.value);
      forall m | 0 <= m < |at'| ensures at'[m] < n + 1 && IsPoolMove(r, at'[m], p'.states[m], p'.steps[m]) {
        if m < |at| { assert IsPoolMove(r, at[m], p.states[m], p.steps[m]); }
      }
    } else {
      p', at' := p, at;
    }
  }

  lemma PoolAppend(p: PoolRuns.Run, move: PoolProtocol.Step) returns (p': PoolRuns.Run)
    requires PoolRuns.IsRun(p)
    requires PoolProtocol.Shaped(p.cfg, Last(p.states)) && PoolProtocol.Enabled(p.cfg, Last(p.states), move)
    ensures PoolRuns.IsRun(p') && p'.cfg == p.cfg && p'.token == p.token && p'.steps == p.steps + [move]
    ensures p'.states == p.states + [PoolProtocol.Next(p.cfg, p.token, Last(p.states), move)]
  {
    p' := PoolRuns.Run(p.cfg, p.token, p.states + [PoolProtocol.Next(p.cfg, p.token, Last(p.states), move)], p.steps + [move]);
    forall i | 0 <= i < |p'.steps| ensures PoolRuns.IsStep(p'.cfg, p'.token, p'.states[i], p'.steps[i], p'.states[i + 1]) {
      if i < |p.steps| { assert PoolRuns.IsStep(p.cfg, p.token, p.states[i], p.steps[i], p.states[i + 1]); }
    }
    assert p'.states[0] == p.states[0];
  }

  ghost predicate IsCachePart(r: Run, n: nat, k: KeyCache.Run, at: seq<nat>) {
    && n < |r.states| && n <= |r.steps|
    && k.cfg == r.world.cache && KeyCache.IsRun(k)
    && Last(k.states) == r.states[n].keys && |at| == |k.steps|
    && (forall m | 0 <= m < |at| :: at[m] < n && IsCacheMove(r, at[m], k.states[m], k.steps[m]))
    && (forall i | 0 <= i < n && CacheMove(r.states[i], r.steps[i]).Some? :: i in at)
  }

  ghost predicate IsCacheMove(r: Run, i: nat, s: KeyCache.Cache, move: KeyCache.Step) {
    i < |r.steps| && i < |r.states| && s == r.states[i].keys && CacheMove(r.states[i], r.steps[i]) == Some(move)
  }

  lemma {:induction false} CacheWithin(r: Run, n: nat) returns (k: KeyCache.Run, at: seq<nat>)
    requires IsRun(r) && n < |r.states|
    ensures IsCachePart(r, n, k, at)
  {
    if n == 0 {
      var sessions, now :| |sessions| == r.world.pool.workers && r.states[0] == Initial(sessions, now);
      k, at := KeyCache.Run(r.world.cache, [r.states[0].keys], []), [];
      assert k.states[0] == KeyCache.Initial(now);
    } else {
      k, at := CacheWithin(r, n - 1);
      k, at := CacheWithinStep(r, n - 1, k, at);
    }
  }

  lemma CacheWithinStep(r: Run, n: nat, k: KeyCache.Run, at: seq<nat>) returns (k': KeyCache.Run, at': seq<nat>)
    requires IsRun(r) && n < |r.steps| && IsCachePart(r, n, k, at)
    ensures IsCachePart(r, n + 1, k', at')
  {
    CacheMoves(r, n);
    var move := CacheMove(r.states[n], r.steps[n]);
    if move.Some? {
      k' := CacheAppend(k, move.value);
      at' := at + [n];
      assert Last(k.states) == k.states[|k.steps|] && IsCacheMove(r, n, Last(k.states), move.value);
      forall m | 0 <= m < |at'| ensures at'[m] < n + 1 && IsCacheMove(r, at'[m], k'.states[m], k'.steps[m]) {
        if m < |at| { assert IsCacheMove(r, at[m], k.states[m], k.steps[m]); }
      }
    } else {
      k', at' := k, at;
    }
  }

  lemma CacheAppend(k: KeyCache.Run, move: KeyCache.Step) returns (k': KeyCache.Run)
    requires KeyCache.IsRun(k) && KeyCache.Enabled(Last(k.states), move)
    ensures KeyCache.IsRun(k') && k'.cfg == k.cfg && k'.steps == k.steps + [move]
    ensures k'.states == k.states + [KeyCache.Next(k.cfg, Last(k.states), move)]
  {
    k' := KeyCache.Run(k.cfg, k.states + [KeyCache.Next(k.cfg, Last(k.states), move)], k.steps + [move]);
    forall i | 0 <= i < |k'.steps| ensures KeyCache.IsStep(k'.cfg, k'.states[i], k'.steps[i], k'.states[i + 1]) {
      if i < |k.steps| { assert KeyCache.IsStep(k.cfg, k.states[i], k.steps[i], k.states[i + 1]); }
    }
    assert k'.states[0] == k.states[0];
  }

  /** Whatever the server does, what it does to its pool is a run of the pool and what it does
      to its cache a run of the cache, so that all that is proved of those holds here. */
  lemma PartsAreRuns(r: Run, n: nat)
    requires IsRun(r) && n < |r.states|
    ensures exists p, at :: IsPoolPart(r, n, p, at)
    ensures exists k, at :: IsCachePart(r, n, k, at)
  {
    var p, at := PoolWithin(r, n);
    var k, at' := CacheWithin(r, n);
  }
}
