/** The pooled service around its operations: admission, error classification, and what is
    reported to the circuit breaker. */
module Service {
  import opened Basics
  import opened Jobs
  import opened KeyCache
  import opened Policy
  import Breaker

  /** gRPC status codes the proxy returns. */
  datatype Code =
    | InvalidArgument | NotFoundCode | PermissionDenied | Unauthenticated
    | ResourceExhausted | DeadlineExceeded | Unavailable | InternalCode

  function ToStatus(e: PoolError): Code {
    match e
    case KeyNotFound(_) => NotFoundCode
    case InvalidRequest => InvalidArgument
    case Overloaded => ResourceExhausted
    case Timeout => DeadlineExceeded
    case ShuttingDown => Unavailable
    case Hsm(_) => InternalCode
    case Internal => InternalCode
  }

  // ----- Admission -----

  /** `charged` names the identity whose bucket the rate limiter took a token from. */
  datatype Admission = Admission(result: Result<Option<string>, Code>, charged: Option<string>)

  /** The breaker's answer, then identity and policy when an authorizer is configured, then
      the caller's share. `within` is the rate limiter's answer; without one it is true. */
  function Admit(allowed: bool, authorizer: Option<Policy>, identity: Option<string>, key: Label, op: Operation, within: bool)
    : Admission
  {
    if !allowed then Admission(Err(Unavailable), None)
    else match authorizer
      case None => Admission(Ok(None), None)
      case Some(policy) =>
        match identity
        case None => Admission(Err(Unauthenticated), None)
        case Some(who) =>
          if !IsAllowed(policy, who, key, op) then Admission(Err(PermissionDenied), None)
          else if !within then Admission(Err(ResourceExhausted), Some(who))
          else Admission(Ok(Some(who)), Some(who))
  }

  /** With an authorizer, admission succeeds exactly for an identified caller whom some entry
      of the policy source grants the operation, while the circuit and its share allow it;
      each refusal has its own code, and only a granted request is charged. Without one it is
      for the circuit alone to refuse, and nobody is identified or charged. */
  lemma AdmitsExactly(allowed: bool, source: seq<Workload>, identity: Option<string>, key: Label, op: Operation, within: bool)
    ensures var a := Admit(allowed, Some(Compiled(source)), identity, key, op, within);
            var granted := identity.Some? && Granted(source, identity.value, key, op);
            && (a.result.Ok? <==> allowed && within && granted)
            && (a.result.Ok? ==> a.result.value == identity)
            && (a.result == Err(Unavailable) <==> !allowed)
            && (a.result == Err(Unauthenticated) <==> allowed && identity.None?)
            && (a.result == Err(PermissionDenied) <==> allowed && identity.Some? && !granted)
            && (a.result == Err(ResourceExhausted) <==> allowed && granted && !within)
            && a.charged == if allowed && granted then identity else None
    ensures Admit(allowed, None, identity, key, op, within) ==
            Admission(if allowed then Ok(None) else Err(Unavailable), None)
  {
    if identity.Some? { CompilationIsExact(source, identity.value, key, op); }
  }

  // ----- What the breaker hears -----

  predicate CountsAsFailure(code: Code) {
    code == InternalCode || code == DeadlineExceeded
  }

  /** Sign, Encrypt and Decrypt report the pool's answer; Verify and GetPublicKey report the
      outcome of the public key lookup. */
  datatype Path = Direct | PublicKeyPath

  /** The loader: a missing key is an answer, a wrong variant an internal error. */
  function LoadPublicKey(answer: JobResult): Result<Lookup, PoolError> {
    match answer
    case Ok(PublicKey(spki, keyType)) => Ok(Found(spki, keyType))
    case Ok(_) => Err(Internal)
    case Err(KeyNotFound(_)) => Ok(NotFound)
    case Err(other) => Err(other)
  }

  /** `None` is a success; every loader error is turned into `Internal` first. */
  function ReportedCode(path: Path, answer: JobResult): Option<Code> {
    match path
    case Direct => if answer.Ok? then None else Some(ToStatus(answer.error))
    case PublicKeyPath => if LoadPublicKey(answer).Ok? then None else Some(ToStatus(Internal))
  }

  predicate ReportsFailure(path: Path, answer: JobResult) {
    ReportedCode(path, answer).Some? && CountsAsFailure(ReportedCode(path, answer).value)
  }

  /** The pool answers that are the caller's doing or a matter of capacity. */
  predicate CallerFault(answer: JobResult) {
    answer.Err? ==>
      answer.error.KeyNotFound? || answer.error.InvalidRequest? || answer.error.Overloaded? || answer.error.ShuttingDown?
  }

  /** Which answers hurt the breaker: on the direct path only those that speak of the token's
      health; on the public key path everything but a key or its absence. */
  lemma FailuresExactly(path: Path, answer: JobResult)
    requires path == PublicKeyPath && answer.Ok? ==> answer.value.PublicKey?
    ensures ReportsFailure(path, answer) <==>
            match path {
              case Direct => !CallerFault(answer)
              case PublicKeyPath => answer.Err? && !answer.error.KeyNotFound?
            }
  {
  }

  datatype Outcome = Outcome(path: Path, answer: JobResult, at: Breaker.Reads)

  function Report(o: Outcome): Breaker.Step {
    if ReportsFailure(o.path, o.answer) then Breaker.Failure(o.at) else Breaker.Success(o.at)
  }

  /** For every configuration and every interleaving with `allow`, a run of Sign, Encrypt and
      Decrypt whose pool answers are all caller faults leaves the circuit closed with no
      failure counted. */
  lemma CallerFaultsNeverTrip(cfg: Breaker.Config, born: Instant, steps: seq<Breaker.Step>, outcomes: seq<Outcome>)
    requires Breaker.Possible(cfg, born, steps) && |outcomes| == |steps|
    requires forall i | 0 <= i < |steps| :: outcomes[i].path == Direct && CallerFault(outcomes[i].answer)
    requires forall i | 0 <= i < |steps| && (steps[i].Success? || steps[i].Failure?) :: steps[i] == Report(outcomes[i])
    ensures Breaker.Run(cfg, born, steps).view.state == Breaker.Closed
    ensures Breaker.Run(cfg, born, steps).view.failures == 0
    ensures Breaker.Run(cfg, born, steps).view.trips == 0
  {
    forall i | 0 <= i < |steps| ensures !steps[i].Failure? {
      FailuresExactly(outcomes[i].path, outcomes[i].answer);
    }
    Breaker.NoFailureNoTrip(cfg, born, steps);
  }

  // ----- Overload -----

  predicate Records(step: Breaker.Step) {
    step.Success? || step.Failure?
  }

  /** A run of the breaker in which every recorded outcome is that of an overloaded request;
      `paths[i]` is the way the request behind step `i` took. */
  predicate OverloadRun(cfg: Breaker.Config, born: Instant, steps: seq<Breaker.Step>, paths: seq<Path>) {
    && Breaker.Possible(cfg, born, steps) && |paths| == |steps|
    && forall i | 0 <= i < |steps| && Records(steps[i]) :: steps[i] == Report(Outcome(paths[i], Err(Overloaded), steps[i].at))
  }

  ghost predicate AskedForKey(steps: seq<Breaker.Step>, paths: seq<Path>) {
    exists i :: 0 <= i < |steps| && i < |paths| && Records(steps[i]) && paths[i] == PublicKeyPath
  }

  lemma FailuresAskedForKey(cfg: Breaker.Config, born: Instant, steps: seq<Breaker.Step>, paths: seq<Path>)
    requires OverloadRun(cfg, born, steps, paths)
    ensures AskedForKey(steps, paths) <==> exists i :: 0 <= i < |steps| && steps[i].Failure?
  {
    forall i | 0 <= i < |steps| ensures steps[i].Failure? <==> Records(steps[i]) && paths[i] == PublicKeyPath {}
  }

  /** Overload is meant never to trip the circuit. Whatever the configuration and however
      calls interleave, it does so only if a request took the public key path. */
  lemma OverloadTripsOnlyByKeys(cfg: Breaker.Config, born: Instant, steps: seq<Breaker.Step>, paths: seq<Path>)
    requires OverloadRun(cfg, born, steps, paths) && !AskedForKey(steps, paths)
    ensures Breaker.Run(cfg, born, steps).view.state == Breaker.Closed
    ensures Breaker.Run(cfg, born, steps).view.failures == Breaker.Run(cfg, born, steps).view.trips == 0
  {
    FailuresAskedForKey(cfg, born, steps, paths);
    Breaker.NoFailureNoTrip(cfg, born, steps);
  }

  /** A new circuit that can open at all is opened by a burst of overloaded Verify or
      GetPublicKey requests, at any instant and of the length that real failures would need;
      under the default configuration that is twenty. */
  lemma OverloadBurstOpens(cfg: Breaker.Config, born: Instant, now: Instant)
    requires Breaker.CanOpen(cfg) && born <= now
    ensures var n := Breaker.Threshold(cfg);
            var steps := seq(n, _ => Report(Outcome(PublicKeyPath, Err(Overloaded), Breaker.Reads(now, now, now))));
            && OverloadRun(cfg, born, steps, seq(n, _ => PublicKeyPath))
            && Breaker.Run(cfg, born, steps).view.state == Breaker.Open
            && Breaker.Run(cfg, born, steps).view.trips == 1
    ensures Breaker.CanOpen(Breaker.DEFAULT) && Breaker.Threshold(Breaker.DEFAULT) == 20
  {
    var n := Breaker.Threshold(cfg);
    var steps := seq(n, _ => Report(Outcome(PublicKeyPath, Err(Overloaded), Breaker.Reads(now, now, now))));
    assert steps == Breaker.Failures(n, now);
    Breaker.EnoughFailuresOpen(cfg, born, now);
  }

  ghost predicate Trips(cfg: Breaker.Config, born: Instant, steps: seq<Breaker.Step>) {
    Breaker.Run(cfg, born, steps).view.trips > 0
  }

  /** Exactly the configurations that can open at all have a run of nothing but overloaded
      requests that trips. */
  lemma OverloadCanTripExactly(cfg: Breaker.Config)
    ensures (exists born, steps, paths :: OverloadRun(cfg, born, steps, paths) && Trips(cfg, born, steps)) <==>
            Breaker.CanOpen(cfg)
  {
    if Breaker.CanOpen(cfg) {
      OverloadBurstOpens(cfg, 0, 0);
      var n := Breaker.Threshold(cfg);
      var steps := seq(n, _ => Report(Outcome(PublicKeyPath, Err(Overloaded), Breaker.Reads(0, 0, 0))));
      assert OverloadRun(cfg, 0, steps, seq(n, _ => PublicKeyPath)) && Trips(cfg, 0, steps);
    } else {
      forall born, steps, paths | OverloadRun(cfg, born, steps, paths) ensures !Trips(cfg, born, steps) {
        Breaker.OtherwiseStaysClosed(cfg, born, steps);
      }
    }
  }

  lemma TouchyOverload(cfg: Breaker.Config, born: Instant, steps: seq<Breaker.Step>, paths: seq<Path>)
    requires Breaker.Touchy(cfg) && OverloadRun(cfg, born, steps, paths)
    ensures Trips(cfg, born, steps) <==> AskedForKey(steps, paths)
  {
    FailuresAskedForKey(cfg, born, steps, paths);
    Breaker.FirstFailureTrips(cfg, born, steps);
  }

  lemma DilutedOverload(cfg: Breaker.Config)
    requires !Breaker.Touchy(cfg)
    ensures exists steps, paths :: OverloadRun(cfg, 0, steps, paths) && AskedForKey(steps, paths) && !Trips(cfg, 0, steps)
  {
    Breaker.DilutedDoesNotTrip(cfg);
    var n := Breaker.Dilution(cfg);
    var steps, paths := Breaker.Diluted(n), seq(n, _ => Direct) + [PublicKeyPath];
    assert OverloadRun(cfg, 0, steps, paths);
    assert Records(steps[n]) && paths[n] == PublicKeyPath;
    assert AskedForKey(steps, paths);
  }

  ghost predicate AlwaysTripsByKeys(cfg: Breaker.Config) {
    forall born, steps, paths | OverloadRun(cfg, born, steps, paths) :: Trips(cfg, born, steps) <==> AskedForKey(steps, paths)
  }

  /** And exactly under a touchy configuration every run of overloaded requests trips if and
      only if one of them took the public key path. */
  lemma OverloadTripsExactly(cfg: Breaker.Config)
    ensures AlwaysTripsByKeys(cfg) <==> Breaker.Touchy(cfg)
  {
    if Breaker.Touchy(cfg) {
      forall born, steps, paths | OverloadRun(cfg, born, steps, paths)
        ensures Trips(cfg, born, steps) <==> AskedForKey(steps, paths)
      {
        TouchyOverload(cfg, born, steps, paths);
      }
    } else {
      DilutedOverload(cfg);
    }
  }
}
