/** The worker object: it owns one session and fills its handle map in place. It keeps the
    history of its tasks, so that what `HandleCache` proves of every task sequence is true of
    the object. */
module Workers {
  import opened Basics
  import opened Jobs
  import opened HandleCache

  class Worker {
    const token: Token
    var session: Session
    var handles: map<Label, KeyHandles>
    var hits: nat
    var misses: nat
    var resets: nat
    ghost const first: Session
    ghost var tasks: seq<Task>

    function State(): Core
      reads this
    {
      Core(session, handles)
    }

    ghost function Start(): Core {
      Core(first, map[])
    }

    /** Session, cache and counters are what the history of tasks makes them. */
    ghost predicate Valid()
      reads this
    {
      && State() == CoreAfter(token, Start(), tasks)
      && hits == HitsIn(token, Start(), tasks)
      && hits + misses == |tasks|
      && resets == ResetsIn(token, Start(), tasks)
    }

    constructor (token: Token, session: Session)
      ensures Valid() && this.token == token && first == session && tasks == []
    {
      this.token, this.session := token, session;
      handles := map[];
      hits, misses, resets := 0, 0, 0;
      first, tasks := session, [];
    }

    method ResolveHandle(env: Env, kind: KeyKind, key: Label) returns (handle: Result<Handle, PoolError>)
      modifies this`handles, this`hits, this`misses
      ensures (State(), handle) == Resolve(token, old(State()), env, kind, key)
      ensures var hit := Cached(old(handles), kind, key).Some?;
              && hits == old(hits) + (if hit then 1 else 0)
              && misses == old(misses) + (if hit then 0 else 1)
    {
      if key in handles && Get(handles[key], kind).Some? {
        hits := hits + 1;
        return Ok(Get(handles[key], kind).value);
      }
      misses := misses + 1;
      handle := FindObject(token, session, env, kind, key);
      if handle.Ok? {
        var entry := if key in handles then handles[key] else NO_HANDLES;
        handles := handles[key := Set(entry, kind, handle.value)];
      }
    }

    method ReopenSession(env: Env)
      modifies this`session, this`handles, this`resets
      ensures State() == ResetSession(old(State()), env)
      ensures resets == old(resets) + 1
    {
      handles := map[];
      resets := resets + 1;
      var reopened := OpenWorkerSession(env);
      if reopened.Ok? {
        session := reopened.value;
      }
    }

    method RunJob(request: JobRequest, env: Env) returns (result: JobResult)
      modifies this`session, this`handles, this`hits, this`misses, this`resets
      ensures var e := HandleCache.Execute(token, old(State()), request, env);
              && State() == e.core
              && result == e.result
              && hits == old(hits) + (if e.hit then 1 else 0)
              && misses == old(misses) + (if e.hit then 0 else 1)
              && resets == old(resets) + (if e.reset then 1 else 0)
    {
      var handle := ResolveHandle(env, KindOf(request), request.key);
      match handle {
        case Ok(h) => result := Perform(env, session, h, request);
        case Err(e) => result := Err(e);
      }
      if NeedsReset(result) {
        ReopenSession(env);
      }
    }

    /** Runs one job and, after a session-fatal failure, recovers before the next. The answer
        is the one a worker without a cache would give after the same history, the cached
        handles are those of the session now held, and a key this job had to look up was
        found before only if the session was reset since. */
    method Execute(request: JobRequest, env: Env) returns (result: JobResult)
      requires Valid()
      modifies this
      ensures Valid() && tasks == old(tasks) + [Task(request, env)]
      ensures Coherent(token, State())
      ensures var answers := UncachedAnswers(token, first, ObservedTasks(token, Start(), tasks));
              answers != [] && result == Last(answers)
      ensures session == UncachedSession(token, first, ObservedTasks(token, Start(), tasks))
      ensures result.Ok? ==> Matches(request, result.value)
      ensures forall i | 0 <= i < |old(tasks)| && SameSlot(tasks[i].request, request) &&
                         LooksUp(token, Start(), tasks, i) && LooksUp(token, Start(), tasks, |old(tasks)|) ::
                exists k :: i <= k < |old(tasks)| && At(token, Start(), tasks, k).reset
    {
      result := RunJob(request, env);
      tasks := tasks + [Task(request, env)];
      assert Front(tasks) == old(tasks);
      RunKeepsCoherence(token, Start(), tasks);
      CacheRefinesUncached(token, Start(), tasks);
      VariantMatches(token, old(State()), request, env);
      LookupsSeparated(token, Start(), tasks);
    }
  }

  lemma LookupsSeparated(token: Token, core: Core, tasks: seq<Task>)
    requires tasks != []
    ensures var n := |tasks| - 1;
            forall i | 0 <= i < n && SameSlot(tasks[i].request, tasks[n].request) &&
                       LooksUp(token, core, tasks, i) && LooksUp(token, core, tasks, n) ::
              exists k :: i <= k < n && At(token, core, tasks, k).reset
  {
    var n := |tasks| - 1;
    forall i | 0 <= i < n && SameSlot(tasks[i].request, tasks[n].request) &&
               LooksUp(token, core, tasks, i) && LooksUp(token, core, tasks, n)
      ensures exists k :: i <= k < n && At(token, core, tasks, k).reset
    {
      OneLookupPerReset(token, core, tasks, i, n);
    }
  }
}
