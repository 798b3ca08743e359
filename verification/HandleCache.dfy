/** A pool worker's session and its per-session handle cache.

    The token decides, session by session, which handle a (class, label) has; that is
    stable while a session lives. Everything else the module does is the `Env` of one job,
    an arbitrary oracle: whether `C_FindObjects` errors, what each call returns for each
    session and handle, and how a reopen goes. */
module HandleCache {
  import opened Basics
  import opened Jobs

  type Session = nat
  type Handle = nat

  datatype KeyHandles = KeyHandles(priv: Option<Handle>, pub: Option<Handle>, secret: Option<Handle>)

  const NO_HANDLES := KeyHandles(None, None, None)

  function Get(h: KeyHandles, kind: KeyKind): Option<Handle> {
    match kind
    case Private => h.priv
    case Public => h.pub
    case Secret => h.secret
  }

  function Set(h: KeyHandles, kind: KeyKind, handle: Handle): KeyHandles {
    match kind
    case Private => h.(priv := Some(handle))
    case Public => h.(pub := Some(handle))
    case Secret => h.(secret := Some(handle))
  }

  type HandleMap = map<Label, KeyHandles>

  datatype Core = Core(session: Session, handles: HandleMap)

  datatype Token = Token(find: (Session, KeyKind, Label) -> Option<Handle>)

  datatype Login = LoggedIn(session: Session) | AlreadyLoggedIn | LoginFailed

  datatype Env = Env(
    findFails: bool,
    gcmParamsOk: bool,
    call: (Session, Handle, JobRequest) -> Result<Bytes, Rv>,
    exportKey: (Session, Handle) -> Option<(Bytes, KeyType)>,
    login: Login,
    secondOpen: Result<Session, Rv>)

  // ----- What the code does -----

  function Cached(handles: HandleMap, kind: KeyKind, key: Label): Option<Handle> {
    if key in handles then Get(handles[key], kind) else None
  }

  function Remember(handles: HandleMap, kind: KeyKind, key: Label, handle: Handle): HandleMap {
    handles[key := Set(if key in handles then handles[key] else NO_HANDLES, kind, handle)]
  }

  function FindObject(token: Token, session: Session, env: Env, kind: KeyKind, key: Label): Result<Handle, PoolError> {
    if env.findFails then Err(Internal)
    else match token.find(session, kind, key)
      case Some(h) => Ok(h)
      case None => Err(KeyNotFound(key))
  }

  /** The PKCS#11 call on a resolved handle, and how its errors are classified. */
  function Perform(env: Env, session: Session, h: Handle, request: JobRequest): JobResult {
    match request
    case Sign(_, _, _) =>
      (match env.call(session, h, request)
       case Ok(bytes) => Ok(Signature(bytes))
       case Err(rv) => Err(Hsm(rv)))
    case Verify(_, _, _, _) =>
      (match env.call(session, h, request)
       case Ok(_) => Ok(Verified(true))
       case Err(SignatureInvalid) => Ok(Verified(false))
       case Err(SignatureLenRange) => Ok(Verified(false))
       case Err(rv) => Err(Hsm(rv)))
    case Encrypt(_, _, _, _) =>
      if !env.gcmParamsOk then Err(InvalidRequest)
      else (match env.call(session, h, request)
            case Ok(bytes) => Ok(Ciphertext(bytes))
            case Err(rv) => Err(Hsm(rv)))
    case Decrypt(_, _, _, _) =>
      if !env.gcmParamsOk then Err(InvalidRequest)
      else (match env.call(session, h, request)
            case Ok(bytes) => Ok(Plaintext(bytes))
            case Err(EncryptedDataInvalid) => Err(InvalidRequest)
            case Err(EncryptedDataLenRange) => Err(InvalidRequest)
            case Err(rv) => Err(Hsm(rv)))
    case GetPublicKey(_) =>
      (match env.exportKey(session, h)
       case Some((spki, keyType)) => Ok(PublicKey(spki, keyType))
       case None => Err(Internal))
  }

  function OpenWorkerSession(env: Env): Result<Session, PoolError> {
    match env.login
    case LoggedIn(s) => Ok(s)
    case AlreadyLoggedIn =>
      (match env.secondOpen
       case Ok(s) => Ok(s)
       case Err(rv) => Err(Hsm(rv)))
    case LoginFailed => Err(Internal)
  }

  function ResetSession(core: Core, env: Env): Core {
    match OpenWorkerSession(env)
    case Ok(s) => Core(s, map[])
    case Err(_) => Core(core.session, map[])
  }

  predicate NeedsReset(result: JobResult) {
    result.Err? && result.error.Hsm? && SessionFatal(result.error.source)
  }

  datatype Executed = Executed(core: Core, result: JobResult, hit: bool, reset: bool)

  function Resolve(token: Token, core: Core, env: Env, kind: KeyKind, key: Label): (Core, Result<Handle, PoolError>) {
    match Cached(core.handles, kind, key)
    case Some(h) => (core, Ok(h))
    case None =>
      match FindObject(token, core.session, env, kind, key)
      case Ok(h) => (core.(handles := Remember(core.handles, kind, key, h)), Ok(h))
      case Err(e) => (core, Err(e))
  }

  function Execute(token: Token, core: Core, request: JobRequest, env: Env): Executed {
    var kind := KindOf(request);
    var (resolved, handle) := Resolve(token, core, env, kind, request.key);
    var result := match handle
      case Ok(h) => Perform(env, resolved.session, h, request)
      case Err(e) => Err(e);
    var reset := NeedsReset(result);
    Executed(if reset then ResetSession(resolved, env) else resolved,
             result, Cached(core.handles, kind, request.key).Some?, reset)
  }

  // ----- Reference: a worker without a cache -----

  function ExecuteUncached(token: Token, session: Session, request: JobRequest, env: Env): (Session, JobResult) {
    var result := match FindObject(token, session, env, KindOf(request), request.key)
      case Ok(h) => Perform(env, session, h, request)
      case Err(e) => Err(e);
    var next := if NeedsReset(result) && OpenWorkerSession(env).Ok? then OpenWorkerSession(env).value else session;
    (next, result)
  }

  /** Every cached handle is the one the current session would find. */
  ghost predicate Coherent(token: Token, core: Core) {
    forall key, kind :: Cached(core.handles, kind, key).Some? ==>
      Cached(core.handles, kind, key) == token.find(core.session, kind, key)
  }

  lemma RememberExact(handles: HandleMap, kind: KeyKind, key: Label, h: Handle, kind': KeyKind, key': Label)
    ensures Cached(Remember(handles, kind, key, h), kind', key') ==
            if kind' == kind && key' == key then Some(h) else Cached(handles, kind', key')
  {
  }

  lemma ExecuteKeepsCoherence(token: Token, core: Core, request: JobRequest, env: Env)
    requires Coherent(token, core)
    ensures Coherent(token, Execute(token, core, request, env).core)
  {
    var kind, key := KindOf(request), request.key;
    var (resolved, handle) := Resolve(token, core, env, kind, key);
    forall key', kind' | Cached(resolved.handles, kind', key').Some?
      ensures Cached(resolved.handles, kind', key') == token.find(resolved.session, kind', key')
    {
      if resolved != core { RememberExact(core.handles, kind, key, handle.value, kind', key'); }
    }
  }

  /** Lookup errors reach only a worker that looks up. */
  function Observed(core: Core, request: JobRequest, env: Env): Env {
    env.(findFails := env.findFails && Cached(core.handles, KindOf(request), request.key).None?)
  }

  lemma ExecuteRefinesUncached(token: Token, core: Core, request: JobRequest, env: Env)
    requires Coherent(token, core)
    ensures ExecuteUncached(token, core.session, request, Observed(core, request, env)) ==
            (Execute(token, core, request, env).core.session, Execute(token, core, request, env).result)
  {
  }

  // ----- Job sequences -----

  datatype Task = Task(request: JobRequest, env: Env)

  function CoreAfter(token: Token, core: Core, tasks: seq<Task>): Core {
    if tasks == [] then core
    else Execute(token, CoreAfter(token, core, Front(tasks)), Last(tasks).request, Last(tasks).env).core
  }

  function At(token: Token, core: Core, tasks: seq<Task>, i: nat): Executed
    requires i < |tasks|
  {
    Execute(token, CoreAfter(token, core, tasks[..i]), tasks[i].request, tasks[i].env)
  }

  function Answers(token: Token, core: Core, tasks: seq<Task>): seq<JobResult> {
    if tasks == [] then []
    else Answers(token, core, Front(tasks)) + [Execute(token, CoreAfter(token, core, Front(tasks)), Last(tasks).request, Last(tasks).env).result]
  }

  /** How many tasks found their handle cached, and how many reset the session. */
  function HitsIn(token: Token, core: Core, tasks: seq<Task>): nat {
    if tasks == [] then 0
    else HitsIn(token, core, Front(tasks)) +
         if Execute(token, CoreAfter(token, core, Front(tasks)), Last(tasks).request, Last(tasks).env).hit then 1 else 0
  }

  function ResetsIn(token: Token, core: Core, tasks: seq<Task>): nat {
    if tasks == [] then 0
    else ResetsIn(token, core, Front(tasks)) +
         if Execute(token, CoreAfter(token, core, Front(tasks)), Last(tasks).request, Last(tasks).env).reset then 1 else 0
  }

  function ObservedTasks(token: Token, core: Core, tasks: seq<Task>): seq<Task> {
    if tasks == [] then []
    else
      var c := CoreAfter(token, core, Front(tasks));
      ObservedTasks(token, core, Front(tasks)) + [Task(Last(tasks).request, Observed(c, Last(tasks).request, Last(tasks).env))]
  }

  function UncachedSession(token: Token, session: Session, tasks: seq<Task>): Session {
    if tasks == [] then session
    else ExecuteUncached(token, UncachedSession(token, session, Front(tasks)), Last(tasks).request, Last(tasks).env).0
  }

  function UncachedAnswers(token: Token, session: Session, tasks: seq<Task>): seq<JobResult> {
    if tasks == [] then []
    else UncachedAnswers(token, session, Front(tasks)) +
         [ExecuteUncached(token, UncachedSession(token, session, Front(tasks)), Last(tasks).request, Last(tasks).env).1]
  }

  lemma CoreStep(token: Token, core: Core, tasks: seq<Task>, i: nat)
    requires i < |tasks|
    ensures CoreAfter(token, core, tasks[..i + 1]) == At(token, core, tasks, i).core
  {
    assert Front(tasks[..i + 1]) == tasks[..i];
  }

  lemma {:induction false} RunKeepsCoherence(token: Token, core: Core, tasks: seq<Task>)
    requires Coherent(token, core)
    ensures Coherent(token, CoreAfter(token, core, tasks))
  {
    if tasks != [] {
      RunKeepsCoherence(token, core, Front(tasks));
      ExecuteKeepsCoherence(token, CoreAfter(token, core, Front(tasks)), Last(tasks).request, Last(tasks).env);
    }
  }

  /** Over every job sequence and every pattern of failures and reopens, the worker answers
      as an uncached worker on the same session history would; the uncached worker sees a
      lookup error exactly where the cached one really looked up. */
  lemma {:induction false} CacheRefinesUncached(token: Token, core: Core, tasks: seq<Task>)
    requires Coherent(token, core)
    ensures UncachedAnswers(token, core.session, ObservedTasks(token, core, tasks)) == Answers(token, core, tasks)
    ensures UncachedSession(token, core.session, ObservedTasks(token, core, tasks)) == CoreAfter(token, core, tasks).session
  {
    if tasks != [] {
      var front, last := Front(tasks), Last(tasks);
      CacheRefinesUncached(token, core, front);
      RunKeepsCoherence(token, core, front);
      ExecuteRefinesUncached(token, CoreAfter(token, core, front), last.request, last.env);
      assert Front(ObservedTasks(token, core, tasks)) == ObservedTasks(token, core, front);
    }
  }

  lemma ObservedSame(core: Core, request: JobRequest, env: Env)
    requires !env.findFails
    ensures Observed(core, request, env) == env
  {
  }

  /** Without lookup errors the two workers agree on the very same oracle. */
  lemma {:induction false} CacheIsTransparent(token: Token, core: Core, tasks: seq<Task>)
    requires Coherent(token, core)
    requires forall i | 0 <= i < |tasks| :: !tasks[i].env.findFails
    ensures UncachedSession(token, core.session, tasks) == CoreAfter(token, core, tasks).session
    ensures UncachedAnswers(token, core.session, tasks) == Answers(token, core, tasks)
  {
    if tasks != [] {
      var front, last := Front(tasks), Last(tasks);
      CacheIsTransparent(token, core, front);
      RunKeepsCoherence(token, core, front);
      var c := CoreAfter(token, core, front);
      ExecuteRefinesUncached(token, c, last.request, last.env);
      ObservedSame(c, last.request, last.env);
    }
  }

  /** A response always has the variant its request calls for, so the handlers' "wrong
      response variant" arms are unreachable. */
  lemma VariantMatches(token: Token, core: Core, request: JobRequest, env: Env)
    ensures var r := Execute(token, core, request, env).result; r.Ok? ==> Matches(request, r.value)
  {
  }

  /** A job resets the session exactly if its PKCS#11 call was made and returned one of six
      codes; exporting a public key never does. A reset empties the cache and changes to the
      session the new login gives, or to a second one if the token says it is logged in
      already, and keeps the old one if neither can be had. */
  lemma ResetsExactly(token: Token, core: Core, request: JobRequest, env: Env)
    ensures var e, handle := Execute(token, core, request, env), Resolve(token, core, env, KindOf(request), request.key).1;
            e.reset <==>
              && handle.Ok? && !request.GetPublicKey?
              && (request.Encrypt? || request.Decrypt? ==> env.gcmParamsOk)
              && var r := env.call(core.session, handle.value, request);
                 r.Err? && (|| r.error == SessionHandleInvalid || r.error == SessionClosed || r.error == DeviceError
                            || r.error == DeviceRemoved || r.error == TokenNotPresent || r.error == UserNotLoggedIn)
    ensures var e := Execute(token, core, request, env);
            && (!e.reset ==> e.core.session == core.session)
            && (e.reset ==> e.core.handles == map[])
            && (e.reset && env.login.LoggedIn? ==> e.core.session == env.login.session)
            && (e.reset && env.login.AlreadyLoggedIn? && env.secondOpen.Ok? ==> e.core.session == env.secondOpen.value)
            && (e.reset && (env.login.LoginFailed? || (env.login.AlreadyLoggedIn? && env.secondOpen.Err?)) ==>
                e.core.session == core.session)
  {
  }

  // ----- Lookups between resets -----

  predicate SameSlot(a: JobRequest, b: JobRequest) {
    KindOf(a) == KindOf(b) && a.key == b.key
  }

  /** Task `i` searched the token for its key and found it. */
  predicate LooksUp(token: Token, core: Core, tasks: seq<Task>, i: nat)
    requires i < |tasks|
  {
    var c, r := CoreAfter(token, core, tasks[..i]), tasks[i].request;
    Cached(c.handles, KindOf(r), r.key).None? && FindObject(token, c.session, tasks[i].env, KindOf(r), r.key).Ok?
  }

  lemma {:induction false} SlotStaysCached(token: Token, core: Core, tasks: seq<Task>, i: nat, j: nat)
    requires i <= j <= |tasks|
    requires forall k | i <= k < j :: !At(token, core, tasks, k).reset
    ensures CoreAfter(token, core, tasks[..j]).session == CoreAfter(token, core, tasks[..i]).session
    ensures forall kind, key ::
              Cached(CoreAfter(token, core, tasks[..i]).handles, kind, key).Some? ==>
              Cached(CoreAfter(token, core, tasks[..j]).handles, kind, key) ==
              Cached(CoreAfter(token, core, tasks[..i]).handles, kind, key)
  {
    if i < j {
      SlotStaysCached(token, core, tasks, i, j - 1);
      CoreStep(token, core, tasks, j - 1);
    }
  }

  /** A key is looked up successfully at most once per session: two successful lookups of
      one slot are always separated by a session reset. */
  lemma OneLookupPerReset(token: Token, core: Core, tasks: seq<Task>, i: nat, j: nat)
    requires i < j < |tasks| && SameSlot(tasks[i].request, tasks[j].request)
    requires LooksUp(token, core, tasks, i) && LooksUp(token, core, tasks, j)
    ensures exists k :: i <= k < j && At(token, core, tasks, k).reset
  {
    if forall k | i <= k < j :: !At(token, core, tasks, k).reset {
      CoreStep(token, core, tasks, i);
      SlotStaysCached(token, core, tasks, i + 1, j);
    }
  }

  // ----- Recovery -----

  /** The operation of task `t` reports a session-fatal error on the handle `session` has for it. */
  predicate FatalOperation(token: Token, session: Session, t: Task) {
    var h := token.find(session, KindOf(t.request), t.request.key);
    h.Some? && NeedsReset(Perform(t.env, session, h.value, t.request))
  }

  predicate LookupWorks(token: Token, session: Session, t: Task) {
    !t.env.findFails && token.find(session, KindOf(t.request), t.request.key).Some?
  }

  ghost predicate Resets(token: Token, core: Core, tasks: seq<Task>) {
    exists k :: 0 <= k < |tasks| && At(token, core, tasks, k).reset
  }

  /** A working lookup at or before a fatal operation on the same slot. */
  ghost predicate FailureSeen(token: Token, session: Session, tasks: seq<Task>, j: nat, i: nat) {
    && j <= i < |tasks|
    && SameSlot(tasks[j].request, tasks[i].request)
    && LookupWorks(token, session, tasks[j])
    && FatalOperation(token, session, tasks[i])
  }

  lemma NewlyCached(token: Token, core: Core, t: Task, kind: KeyKind, key: Label)
    requires Cached(core.handles, kind, key).None?
    requires Cached(Execute(token, core, t.request, t.env).core.handles, kind, key).Some?
    ensures KindOf(t.request) == kind && t.request.key == key && LookupWorks(token, core.session, t)
  {
  }

  lemma {:induction false} CachedWasLookedUp(token: Token, session: Session, tasks: seq<Task>, n: nat, kind: KeyKind, key: Label)
    requires n <= |tasks|
    requires forall k | 0 <= k < n :: !At(token, Core(session, map[]), tasks, k).reset
    requires Cached(CoreAfter(token, Core(session, map[]), tasks[..n]).handles, kind, key).Some?
    ensures exists j :: 0 <= j < n && KindOf(tasks[j].request) == kind && tasks[j].request.key == key &&
              LookupWorks(token, session, tasks[j])
  {
    var core := Core(session, map[]);
    CoreStep(token, core, tasks, n - 1);
    SlotStaysCached(token, core, tasks, 0, n - 1);
    assert tasks[..0] == [];
    if Cached(CoreAfter(token, core, tasks[..n - 1]).handles, kind, key).Some? {
      CachedWasLookedUp(token, session, tasks, n - 1, kind, key);
    } else {
      NewlyCached(token, CoreAfter(token, core, tasks[..n - 1]), tasks[n - 1], kind, key);
    }
  }

  lemma ResetWasSeen(token: Token, session: Session, tasks: seq<Task>, k: nat)
    requires k < |tasks| && At(token, Core(session, map[]), tasks, k).reset
    requires forall m | 0 <= m < k :: !At(token, Core(session, map[]), tasks, m).reset
    ensures exists j, i :: FailureSeen(token, session, tasks, j, i)
  {
    var core := Core(session, map[]);
    var r := tasks[k].request;
    assert tasks[..0] == [];
    SlotStaysCached(token, core, tasks, 0, k);
    RunKeepsCoherence(token, core, tasks[..k]);
    var c := CoreAfter(token, core, tasks[..k]);
    if Cached(c.handles, KindOf(r), r.key).Some? {
      CachedWasLookedUp(token, session, tasks, k, KindOf(r), r.key);
      var j :| 0 <= j < k && KindOf(tasks[j].request) == KindOf(r) && tasks[j].request.key == r.key &&
               LookupWorks(token, session, tasks[j]);
      assert FailureSeen(token, session, tasks, j, k);
    } else {
      assert FailureSeen(token, session, tasks, k, k);
    }
  }

  lemma SeenFailureResets(token: Token, session: Session, tasks: seq<Task>, j: nat, i: nat)
    requires FailureSeen(token, session, tasks, j, i)
    ensures Resets(token, Core(session, map[]), tasks)
  {
    var core := Core(session, map[]);
    if forall k | 0 <= k < |tasks| :: !At(token, core, tasks, k).reset {
      assert tasks[..0] == [];
      SlotStaysCached(token, core, tasks, 0, j);
      RunKeepsCoherence(token, core, tasks[..j]);
      CoreStep(token, core, tasks, j);
      if j < i {
        SlotStaysCached(token, core, tasks, j + 1, i);
        RunKeepsCoherence(token, core, tasks[..i]);
      }
      assert At(token, core, tasks, i).reset;
    }
  }

  /** After a reopen that failed, the worker keeps the old session and an empty cache. It
      reopens again exactly when a later lookup on that session works and an operation on
      the key so found fails fatally; lookup errors alone never lead there. */
  lemma ReopensAgainExactly(token: Token, core: Core, failed: Env, tasks: seq<Task>)
    requires OpenWorkerSession(failed).Err?
    ensures Resets(token, ResetSession(core, failed), tasks) <==>
            exists j, i :: FailureSeen(token, core.session, tasks, j, i)
  {
    var session, after := core.session, ResetSession(core, failed);
    if Resets(token, after, tasks) {
      var k := FirstReset(token, after, tasks, |tasks|);
      ResetWasSeen(token, session, tasks, k);
    }
    forall j, i | FailureSeen(token, session, tasks, j, i) {
      SeenFailureResets(token, session, tasks, j, i);
    }
  }

  ghost function FirstReset(token: Token, core: Core, tasks: seq<Task>, n: nat): (k: nat)
    requires n <= |tasks| && exists m :: 0 <= m < n && At(token, core, tasks, m).reset
    ensures k < n && At(token, core, tasks, k).reset
    ensures forall m | 0 <= m < k :: !At(token, core, tasks, m).reset
  {
    if exists m :: 0 <= m < n - 1 && At(token, core, tasks, m).reset
    then FirstReset(token, core, tasks, n - 1) else n - 1
  }

  lemma {:induction false} LookupErrorsChangeNothing(token: Token, session: Session, tasks: seq<Task>)
    requires forall i | 0 <= i < |tasks| :: tasks[i].env.findFails
    ensures CoreAfter(token, Core(session, map[]), tasks) == Core(session, map[])
  {
    if tasks != [] {
      LookupErrorsChangeNothing(token, session, Front(tasks));
    }
  }

  /** The source means a failed reopen to be retried "on the next failure". If the old
      session is dead so that lookups error, no number of failing jobs retries it: each
      answers `Internal` and the worker stays as it is. */
  lemma DeadSessionNeverRecovers(token: Token, core: Core, failed: Env, tasks: seq<Task>)
    requires OpenWorkerSession(failed).Err?
    requires forall i | 0 <= i < |tasks| :: tasks[i].env.findFails
    ensures CoreAfter(token, ResetSession(core, failed), tasks) == Core(core.session, map[])
    ensures forall i | 0 <= i < |tasks| ::
              At(token, ResetSession(core, failed), tasks, i).result == Err(Internal) &&
              !At(token, ResetSession(core, failed), tasks, i).reset
  {
    LookupErrorsChangeNothing(token, core.session, tasks);
    forall i | 0 <= i < |tasks|
      ensures At(token, ResetSession(core, failed), tasks, i).result == Err(Internal)
      ensures !At(token, ResetSession(core, failed), tasks, i).reset
    {
      LookupErrorsChangeNothing(token, core.session, tasks[..i]);
    }
  }
}
