/** The public key cache over a single-flight loading map, with every `get_or_load` call
    split at its probe, its lookup, the end of the load it waits for, and its accounting. */
module KeyCache {
  import opened Basics
  import opened Jobs

  datatype Lookup = Found(spki: Bytes, keyType: KeyType) | NotFound

  datatype Config = Config(ttl: nat, negativeTtl: nat)

  datatype Entry = Entry(value: Lookup, loadedAt: Instant)

  type CallId = nat

  /** A call after its probe, waiting for a load, answered, accounted for, or failed (its
      load erred, or the call was cancelled). */
  datatype Call =
    | Probed(key: Label, wasPresent: bool)
    | Joined(key: Label, wasPresent: bool)
    | Answered(key: Label, wasPresent: bool, value: Lookup, at: Instant)
    | Settled(key: Label, wasPresent: bool, value: Lookup, at: Instant)
    | Failed(key: Label)

  datatype Load = Load(key: Label, result: Result<Lookup, PoolError>, at: Instant)

  datatype Cache = Cache(
    clock: Instant,
    entries: map<Label, Entry>,
    loading: map<Label, CallId>,  // the call that leads each load in flight
    calls: map<CallId, Call>,
    loads: seq<Load>,             // every load that ended
    hits: nat,
    misses: nat,
    negativeHits: nat)

  datatype Step =
    | Probe(c: CallId, key: Label)
    | Get(c: CallId)
    | LoadDone(key: Label, result: Result<Lookup, PoolError>)
    | Abandon(key: Label)
    | Settle(c: CallId)
    | Remove(key: Label)
    | Tick(now: Instant)

  /** The expiry policy: a missing key is remembered for a shorter time. */
  function Ttl(cfg: Config, value: Lookup): nat {
    if value.Found? then cfg.ttl else cfg.negativeTtl
  }

  predicate Live(cfg: Config, s: Cache, key: Label) {
    key in s.entries && s.clock < s.entries[key].loadedAt + Ttl(cfg, s.entries[key].value)
  }

  predicate Enabled(s: Cache, step: Step) {
    match step
    case Probe(c, _) => c !in s.calls
    case Get(c) => c in s.calls && s.calls[c].Probed?
    case LoadDone(key, _) => key in s.loading
    case Abandon(key) => key in s.loading
    case Settle(c) => c in s.calls && s.calls[c].Answered?
    case Remove(_) => true
    case Tick(now) => s.clock <= now
  }

  predicate StartsLoad(cfg: Config, s: Cache, step: Step) {
    step.Get? && Enabled(s, step) && !Live(cfg, s, s.calls[step.c].key) && s.calls[step.c].key !in s.loading
  }

  /** What the end of a load does to one call. */
  function Deliver(call: Call, key: Label, result: Result<Lookup, PoolError>, now: Instant): Call {
    if call.Joined? && call.key == key then
      match result
      case Ok(value) => Answered(key, call.wasPresent, value, now)
      case Err(_) => Failed(key)
    else call
  }

  /** The leader's call was cancelled: the calls that had joined it look again. */
  function LookAgain(call: Call, key: Label): Call {
    if call.Joined? && call.key == key then Probed(key, call.wasPresent) else call
  }

  function Next(cfg: Config, s: Cache, step: Step): Cache
    requires Enabled(s, step)
  {
    match step
    case Probe(c, key) => s.(calls := s.calls[c := Probed(key, Live(cfg, s, key))])
    case Get(c) =>
      var key, was := s.calls[c].key, s.calls[c].wasPresent;
      if Live(cfg, s, key) then s.(calls := s.calls[c := Answered(key, was, s.entries[key].value, s.clock)])
      else s.(calls := s.calls[c := Joined(key, was)],
              loading := if key in s.loading then s.loading else s.loading[key := c])
    case LoadDone(key, result) =>
      s.(loading := s.loading - {key},
         loads := s.loads + [Load(key, result, s.clock)],
         entries := if result.Ok? then s.entries[key := Entry(result.value, s.clock)] else s.entries,
         calls := map c | c in s.calls :: Deliver(s.calls[c], key, result, s.clock))
    case Abandon(key) =>
      s.(loading := s.loading - {key},
         calls := map c | c in s.calls :: if c == s.loading[key] then Failed(s.calls[c].key) else LookAgain(s.calls[c], key))
    case Settle(c) =>
      var call := s.calls[c];
      s.(calls := s.calls[c := Settled(call.key, call.wasPresent, call.value, call.at)],
         hits := s.hits + (if call.wasPresent then 1 else 0),
         misses := s.misses + (if call.wasPresent then 0 else 1),
         negativeHits := s.negativeHits + (if call.wasPresent && call.value.NotFound? then 1 else 0))
    case Remove(key) => s.(entries := s.entries - {key})
    case Tick(now) => s.(clock := now)
  }

  function Initial(now: Instant): Cache {
    Cache(now, map[], map[], map[], [], 0, 0, 0)
  }

  // ----- Invariants -----

  /** `value` came from a successful load of `key` that ended at `at`. */
  ghost predicate Loaded(s: Cache, key: Label, value: Lookup, at: Instant) {
    Load(key, Ok(value), at) in s.loads && at <= s.clock
  }

  /** Fresh at time `t`: just loaded, or younger than the time-to-live of its outcome. */
  ghost predicate FreshAt(cfg: Config, s: Cache, key: Label, value: Lookup, t: Instant) {
    exists at: Instant :: Loaded(s, key, value, at) && at <= t && (t == at || t < at + Ttl(cfg, value))
  }

  ghost predicate EntryOk(s: Cache, key: Label) {
    key in s.entries ==> Loaded(s, key, s.entries[key].value, s.entries[key].loadedAt)
  }

  ghost predicate CallOk(cfg: Config, s: Cache, c: CallId) {
    c in s.calls ==>
      var call := s.calls[c];
      && (call.Answered? || call.Settled? ==> FreshAt(cfg, s, call.key, call.value, call.at))
      && (call.Joined? ==> call.key in s.loading)
  }

  ghost predicate LeaderOk(s: Cache, key: Label) {
    key in s.loading ==> s.loading[key] in s.calls && s.calls[s.loading[key]].Joined? && s.calls[s.loading[key]].key == key
  }

  datatype Tally = Hit | Miss | NegativeHit

  /** Which settled calls a counter counts. */
  predicate CountedBy(call: Call, t: Tally) {
    && call.Settled?
    && match t
       case Hit => call.wasPresent
       case Miss => !call.wasPresent
       case NegativeHit => call.wasPresent && call.value.NotFound?
  }

  function CallsOf(calls: map<CallId, Call>, t: Tally): set<CallId> {
    set c | c in calls && CountedBy(calls[c], t)
  }

  function Counter(s: Cache, t: Tally): nat {
    match t
    case Hit => s.hits
    case Miss => s.misses
    case NegativeHit => s.negativeHits
  }

  ghost predicate Inv(cfg: Config, s: Cache) {
    && (forall key :: EntryOk(s, key))
    && (forall c :: CallOk(cfg, s, c))
    && (forall key :: LeaderOk(s, key))
    && (forall t :: Counter(s, t) == |CallsOf(s.calls, t)|)
  }

  lemma LoadedStays(cfg: Config, s: Cache, step: Step, key: Label, value: Lookup, at: Instant)
    requires Enabled(s, step) && Loaded(s, key, value, at)
    ensures Loaded(Next(cfg, s, step), key, value, at)
  {
  }

  lemma FreshStays(cfg: Config, s: Cache, step: Step, key: Label, value: Lookup, t: Instant)
    requires Enabled(s, step) && FreshAt(cfg, s, key, value, t)
    ensures FreshAt(cfg, Next(cfg, s, step), key, value, t)
  {
    var at: Instant :| Loaded(s, key, value, at) && at <= t && (t == at || t < at + Ttl(cfg, value));
    LoadedStays(cfg, s, step, key, value, at);
  }

  lemma StepEntry(cfg: Config, s: Cache, step: Step, key: Label)
    requires Enabled(s, step) && EntryOk(s, key)
    ensures EntryOk(Next(cfg, s, step), key)
  {
    if key in s.entries {
      LoadedStays(cfg, s, step, key, s.entries[key].value, s.entries[key].loadedAt);
    }
    if step.LoadDone? && step.result.Ok? && step.key == key {
      assert Last(Next(cfg, s, step).loads) == Load(key, Ok(step.result.value), s.clock);
    }
  }

  lemma StepCall(cfg: Config, s: Cache, step: Step, c: CallId)
    requires Enabled(s, step) && CallOk(cfg, s, c)
    requires step.Get? ==> EntryOk(s, s.calls[step.c].key)
    ensures CallOk(cfg, Next(cfg, s, step), c)
  {
    var s' := Next(cfg, s, step);
    if c in s.calls && (s.calls[c].Answered? || s.calls[c].Settled?) {
      FreshStays(cfg, s, step, s.calls[c].key, s.calls[c].value, s.calls[c].at);
    }
    if step.Get? && step.c == c && Live(cfg, s, s.calls[c].key) {
      var key := s.calls[c].key;
      assert Loaded(s', key, s.entries[key].value, s.entries[key].loadedAt);
    }
    if step.LoadDone? && step.result.Ok? {
      assert Last(s'.loads) == Load(step.key, Ok(step.result.value), s.clock);
      assert Loaded(s', step.key, step.result.value, s.clock);
    }
  }

  lemma StepLeader(cfg: Config, s: Cache, step: Step, key: Label)
    requires Enabled(s, step) && LeaderOk(s, key)
    requires step.Abandon? ==> LeaderOk(s, step.key)
    ensures LeaderOk(Next(cfg, s, step), key)
  {
  }

  predicate IsCounted(s: Cache, c: CallId, t: Tally) {
    c in s.calls && CountedBy(s.calls[c], t)
  }

  predicate Settles(s: Cache, step: Step, c: CallId, t: Tally)
    requires Enabled(s, step)
  {
    && step.Settle? && step.c == c
    && var call := s.calls[c];
       CountedBy(Settled(call.key, call.wasPresent, call.value, call.at), t)
  }

  lemma CountedStep(cfg: Config, s: Cache, step: Step, c: CallId, t: Tally)
    requires Enabled(s, step) && (step.Abandon? ==> LeaderOk(s, step.key))
    ensures IsCounted(Next(cfg, s, step), c, t) <==> IsCounted(s, c, t) || Settles(s, step, c, t)
  {
  }

  lemma StepCounts(cfg: Config, s: Cache, step: Step, t: Tally)
    requires Enabled(s, step) && Counter(s, t) == |CallsOf(s.calls, t)|
    requires step.Abandon? ==> LeaderOk(s, step.key)
    ensures Counter(Next(cfg, s, step), t) == |CallsOf(Next(cfg, s, step).calls, t)|
  {
    var s' := Next(cfg, s, step);
    var before, after := CallsOf(s.calls, t), CallsOf(s'.calls, t);
    forall c ensures c in after <==> c in before || Settles(s, step, c, t) {
      CountedStep(cfg, s, step, c, t);
      assert c in after <==> IsCounted(s', c, t);
      assert c in before <==> IsCounted(s, c, t);
    }
    if step.Settle? && Settles(s, step, step.c, t) {
      assert after == before + {step.c};
    } else {
      assert after == before;
    }
  }

  lemma StepKeepsInv(cfg: Config, s: Cache, step: Step)
    requires Inv(cfg, s) && Enabled(s, step)
    ensures Inv(cfg, Next(cfg, s, step))
  {
    if step.Abandon? { assert LeaderOk(s, step.key); }
    if step.Get? { assert EntryOk(s, s.calls[step.c].key); }
    forall key ensures EntryOk(Next(cfg, s, step), key) && LeaderOk(Next(cfg, s, step), key) {
      assert EntryOk(s, key) && LeaderOk(s, key);
      StepEntry(cfg, s, step, key);
      StepLeader(cfg, s, step, key);
    }
    forall c ensures CallOk(cfg, Next(cfg, s, step), c) {
      assert CallOk(cfg, s, c);
      StepCall(cfg, s, step, c);
    }
    forall t ensures Counter(Next(cfg, s, step), t) == |CallsOf(Next(cfg, s, step).calls, t)| {
      StepCounts(cfg, s, step, t);
    }
  }

  // ----- Runs -----

  datatype Run = Run(cfg: Config, states: seq<Cache>, steps: seq<Step>)

  ghost predicate IsStep(cfg: Config, s: Cache, step: Step, s': Cache) {
    Enabled(s, step) && s' == Next(cfg, s, step)
  }

  ghost predicate IsRun(r: Run) {
    && |r.states| == |r.steps| + 1
    && (exists now :: r.states[0] == Initial(now))
    && (forall i | 0 <= i < |r.steps| :: IsStep(r.cfg, r.states[i], r.steps[i], r.states[i + 1]))
  }

  lemma {:induction false} ReachableInv(r: Run, i: nat)
    requires IsRun(r) && i < |r.states|
    ensures Inv(r.cfg, r.states[i])
  {
    if i == 0 {
      forall t ensures CallsOf(r.states[0].calls, t) == {} {}
    } else {
      ReachableInv(r, i - 1);
      assert IsStep(r.cfg, r.states[i - 1], r.steps[i - 1], r.states[i]);
      StepKeepsInv(r.cfg, r.states[i - 1], r.steps[i - 1]);
    }
  }

  /** Bounded staleness: whatever a call is answered with, at whatever time, some load of its
      key returned exactly that, at that instant or less than the time-to-live ago: that of
      keys for a key, that of negative results for a missing one. */
  lemma AnswersAreFresh(r: Run, i: nat, c: CallId)
    requires IsRun(r) && i < |r.states| && c in r.states[i].calls
    requires r.states[i].calls[c].Answered? || r.states[i].calls[c].Settled?
    ensures var call := r.states[i].calls[c];
            exists at: Instant :: Loaded(r.states[i], call.key, call.value, at) && at <= call.at &&
              (call.at == at
               || (call.value.Found? && call.at < at + r.cfg.ttl)
               || (call.value.NotFound? && call.at < at + r.cfg.negativeTtl))
  {
    ReachableInv(r, i);
    assert CallOk(r.cfg, r.states[i], c);
    var call := r.states[i].calls[c];
    var at: Instant :| Loaded(r.states[i], call.key, call.value, at) && at <= call.at &&
                       (call.at == at || call.at < at + Ttl(r.cfg, call.value));
  }

  /** Only successful loads are remembered. */
  lemma ErrorsAreNotStored(r: Run, i: nat, key: Label)
    requires IsRun(r) && i < |r.states| && key in r.states[i].entries
    ensures var e := r.states[i].entries[key];
            Load(key, Ok(e.value), e.loadedAt) in r.states[i].loads
  {
    ReachableInv(r, i);
    assert EntryOk(r.states[i], key);
  }

  /** Each counter is the number of settled calls of its kind, so hits and misses together
      are the successful calls and negative hits are among the hits. */
  lemma CountersAreCalls(r: Run, i: nat)
    requires IsRun(r) && i < |r.states|
    ensures forall t :: Counter(r.states[i], t) == |CallsOf(r.states[i].calls, t)|
    ensures r.states[i].negativeHits <= r.states[i].hits
    ensures r.states[i].hits + r.states[i].misses == |set c | c in r.states[i].calls && r.states[i].calls[c].Settled?|
  {
    ReachableInv(r, i);
    var s := r.states[i];
    var hits, misses, negative := CallsOf(s.calls, Hit), CallsOf(s.calls, Miss), CallsOf(s.calls, NegativeHit);
    assert Counter(s, Hit) == |hits| && Counter(s, Miss) == |misses| && Counter(s, NegativeHit) == |negative|;
    assert hits == negative + (hits - negative);
    assert (set c | c in s.calls && s.calls[c].Settled?) == hits + misses;
  }

  lemma FlagStep(cfg: Config, s: Cache, step: Step, c: CallId)
    requires Enabled(s, step) && c in s.calls
    ensures var s' := Next(cfg, s, step);
            && c in s'.calls && s'.calls[c].key == s.calls[c].key
            && (!s'.calls[c].Failed? ==> !s.calls[c].Failed? && s'.calls[c].wasPresent == s.calls[c].wasPresent)
  {
  }

  /** The flag a call reports as "served from cache" is the liveness of its key when the call
      probed, for as long as the call exists and whatever happens in between. */
  lemma {:induction false} FlagIsTheProbe(r: Run, i: nat, j: nat, c: CallId)
    requires IsRun(r) && i < j < |r.states| && r.steps[i].Probe? && r.steps[i].c == c
    ensures c in r.states[j].calls && r.states[j].calls[c].key == r.steps[i].key
    ensures !r.states[j].calls[c].Failed? ==>
            r.states[j].calls[c].wasPresent == Live(r.cfg, r.states[i], r.steps[i].key)
  {
    assert IsStep(r.cfg, r.states[j - 1], r.steps[j - 1], r.states[j]);
    if j > i + 1 {
      FlagIsTheProbe(r, i, j - 1, c);
      FlagStep(r.cfg, r.states[j - 1], r.steps[j - 1], c);
    }
  }

  // ----- What a call gets -----

  predicate HasAnswer(s: Cache, c: CallId, key: Label, was: bool, value: Lookup, at: Instant) {
    c in s.calls && (s.calls[c] == Answered(key, was, value, at) || s.calls[c] == Settled(key, was, value, at))
  }

  /** What each kind of step makes of one call that exists. */
  lemma CallStep(cfg: Config, s: Cache, step: Step, c: CallId)
    requires Enabled(s, step) && c in s.calls && (step.Abandon? ==> LeaderOk(s, step.key))
    ensures c in Next(cfg, s, step).calls
    ensures var call, next := s.calls[c], Next(cfg, s, step).calls[c];
            match call {
              case Probed(key, was) =>
                if step != Get(c) then next == call
                else if Live(cfg, s, key) then next == Answered(key, was, s.entries[key].value, s.clock)
                else next == Joined(key, was)
              case Joined(key, was) =>
                if step.LoadDone? && step.key == key then
                  next == if step.result.Ok? then Answered(key, was, step.result.value, s.clock) else Failed(key)
                else if step.Abandon? && step.key == key then
                  next == if s.loading[key] == c then Failed(key) else Probed(key, was)
                else next == call
              case Answered(key, was, value, at) => next == if step == Settle(c) then Settled(key, was, value, at) else call
              case _ => next == call
            }
  {
  }

  lemma {:induction false} AnswerIsFinal(r: Run, i: nat, j: nat, c: CallId, key: Label, was: bool, value: Lookup, at: Instant)
    requires IsRun(r) && i <= j < |r.states| && HasAnswer(r.states[i], c, key, was, value, at)
    ensures HasAnswer(r.states[j], c, key, was, value, at)
  {
    if i < j {
      AnswerIsFinal(r, i, j - 1, c, key, was, value, at);
      RunCallStep(r, j - 1, c);
    }
  }

  lemma RunCallStep(r: Run, i: nat, c: CallId)
    requires IsRun(r) && i < |r.steps| && c in r.states[i].calls
    ensures IsStep(r.cfg, r.states[i], r.steps[i], r.states[i + 1])
    ensures r.steps[i].Abandon? ==> LeaderOk(r.states[i], r.steps[i].key)
    ensures c in r.states[i + 1].calls
    ensures !r.states[i].calls[c].Probed? && !r.states[i].calls[c].Joined? && !r.states[i].calls[c].Answered? ==>
            r.states[i + 1].calls[c] == r.states[i].calls[c]
    ensures r.states[i].calls[c].Answered? ==>
            var call := r.states[i].calls[c];
            HasAnswer(r.states[i + 1], c, call.key, call.wasPresent, call.value, call.at)
  {
    assert IsStep(r.cfg, r.states[i], r.steps[i], r.states[i + 1]);
    if r.steps[i].Abandon? {
      assert LeaderOk(r.states[i], r.steps[i].key) by { ReachableInv(r, i); }
    }
    CallStep(r.cfg, r.states[i], r.steps[i], c);
  }

  /** One load serves everyone: every call that waits for a key when a load of it succeeds is
      answered with what that load returned, and keeps that answer. */
  lemma WaitersGetTheLoad(r: Run, i: nat, j: nat, c: CallId)
    requires IsRun(r) && i < j < |r.states| && r.steps[i].LoadDone? && r.steps[i].result.Ok?
    requires c in r.states[i].calls && r.states[i].calls[c].Joined? && r.states[i].calls[c].key == r.steps[i].key
    ensures HasAnswer(r.states[j], c, r.steps[i].key, r.states[i].calls[c].wasPresent, r.steps[i].result.value, r.states[i].clock)
  {
    RunCallStep(r, i, c);
    CallStep(r.cfg, r.states[i], r.steps[i], c);
    AnswerIsFinal(r, i + 1, j, c, r.steps[i].key, r.states[i].calls[c].wasPresent, r.steps[i].result.value, r.states[i].clock);
  }

  /** A lookup that finds a live entry is answered with it. */
  lemma LiveEntryAnswers(r: Run, i: nat, j: nat, c: CallId)
    requires IsRun(r) && i < j < |r.states| && r.steps[i] == Get(c)
    requires c in r.states[i].calls && Live(r.cfg, r.states[i], r.states[i].calls[c].key)
    ensures var s, call := r.states[i], r.states[i].calls[c];
            call.Probed? && HasAnswer(r.states[j], c, call.key, call.wasPresent, s.entries[call.key].value, s.clock)
  {
    RunCallStep(r, i, c);
    CallStep(r.cfg, r.states[i], r.steps[i], c);
    var s, call := r.states[i], r.states[i].calls[c];
    AnswerIsFinal(r, i + 1, j, c, call.key, call.wasPresent, s.entries[call.key].value, s.clock);
  }

  /** Step `step` fails call `c`: the load it waits for errs, or it led that load and was cancelled. */
  predicate Fails(s: Cache, step: Step, c: CallId) {
    && c in s.calls && s.calls[c].Joined?
    && (|| (step.LoadDone? && step.key == s.calls[c].key && step.result.Err?)
        || (step.Abandon? && step.key == s.calls[c].key && step.key in s.loading && s.loading[step.key] == c))
  }

  ghost predicate FailedBefore(r: Run, n: nat, c: CallId) {
    exists i :: 0 <= i < n && i < |r.steps| && i < |r.states| && Fails(r.states[i], r.steps[i], c)
  }

  /** A call fails for these reasons only, and always for them. */
  lemma {:induction false} FailedExactly(r: Run, n: nat, c: CallId)
    requires IsRun(r) && n < |r.states|
    ensures c in r.states[n].calls && r.states[n].calls[c].Failed? <==> FailedBefore(r, n, c)
  {
    if n > 0 {
      FailedExactly(r, n - 1, c);
      assert IsStep(r.cfg, r.states[n - 1], r.steps[n - 1], r.states[n]);
      if c in r.states[n - 1].calls {
        RunCallStep(r, n - 1, c);
        CallStep(r.cfg, r.states[n - 1], r.steps[n - 1], c);
      }
      assert FailedBefore(r, n, c) <==> FailedBefore(r, n - 1, c) || Fails(r.states[n - 1], r.steps[n - 1], c);
    }
  }

  /** No call is stuck: one that has probed can look up, one that waits has a load in flight
      that any outcome can end, and one that is answered can be accounted for. */
  lemma EveryCallCanMove(r: Run, i: nat, c: CallId, result: Result<Lookup, PoolError>)
    requires IsRun(r) && i < |r.states| && c in r.states[i].calls
    ensures var s, call := r.states[i], r.states[i].calls[c];
            && (call.Probed? ==> Enabled(s, Get(c)))
            && (call.Joined? ==> Enabled(s, LoadDone(call.key, result)))
            && (call.Answered? ==> Enabled(s, Settle(c)))
  {
    ReachableInv(r, i);
    assert CallOk(r.cfg, r.states[i], c);
  }

  /** An invalidated key is gone until it is loaded again. */
  lemma {:induction false} InvalidatedStaysGone(r: Run, i: nat, j: nat, key: Label)
    requires IsRun(r) && i < j < |r.states| && r.steps[i] == Remove(key)
    requires forall k | i < k < j :: !(r.steps[k].LoadDone? && r.steps[k].key == key)
    ensures key !in r.states[j].entries && !Live(r.cfg, r.states[j], key)
  {
    assert IsStep(r.cfg, r.states[j - 1], r.steps[j - 1], r.states[j]);
    if j > i + 1 {
      InvalidatedStaysGone(r, i, j - 1, key);
    }
  }

  // ----- How often the token is asked -----

  /** Between steps `i` and `j` the entry of `key` is neither invalidated nor evicted. */
  ghost predicate NotDropped(r: Run, i: nat, j: nat, key: Label) {
    forall k | i < k < j && k < |r.steps| :: !(r.steps[k].Remove? && r.steps[k].key == key)
  }

  predicate Remembers(s: Cache, key: Label, e: Entry) {
    key in s.entries && s.entries[key] == e && key !in s.loading
  }

  lemma RemembersStep(cfg: Config, s: Cache, step: Step, key: Label, e: Entry)
    requires Enabled(s, step) && !(step.Remove? && step.key == key)
    requires s.clock >= e.loadedAt + Ttl(cfg, e.value) || Remembers(s, key, e)
    ensures var s' := Next(cfg, s, step);
            s'.clock >= e.loadedAt + Ttl(cfg, e.value) || Remembers(s', key, e)
  {
  }

  lemma {:induction false} RemembersUntilExpiry(r: Run, i: nat, j: nat)
    requires IsRun(r) && i < j < |r.states|
    requires r.steps[i].LoadDone? && r.steps[i].result.Ok? && NotDropped(r, i, j, r.steps[i].key)
    ensures var e := Entry(r.steps[i].result.value, r.states[i].clock);
            r.states[j].clock >= e.loadedAt + Ttl(r.cfg, e.value) || Remembers(r.states[j], r.steps[i].key, e)
  {
    assert IsStep(r.cfg, r.states[j - 1], r.steps[j - 1], r.states[j]);
    if j > i + 1 {
      RemembersUntilExpiry(r, i, j - 1);
      RemembersStep(r.cfg, r.states[j - 1], r.steps[j - 1], r.steps[i].key, Entry(r.steps[i].result.value, r.states[i].clock));
    }
  }

  predicate StartsLoadOf(cfg: Config, s: Cache, step: Step, key: Label) {
    StartsLoad(cfg, s, step) && s.calls[step.c].key == key
  }

  /** No stampede: after a successful load of a key, the token is not asked for it again
      until its time-to-live is over, unless the entry was dropped meanwhile. */
  lemma LoadsSpacedByTtl(r: Run, i: nat, j: nat)
    requires IsRun(r) && i < j < |r.steps|
    requires r.steps[i].LoadDone? && r.steps[i].result.Ok?
    requires StartsLoadOf(r.cfg, r.states[j], r.steps[j], r.steps[i].key)
    requires NotDropped(r, i, j, r.steps[i].key)
    ensures r.states[j].clock >= r.states[i].clock + Ttl(r.cfg, r.steps[i].result.value)
  {
    RemembersUntilExpiry(r, i, j);
  }

  predicate EndsLoadOf(step: Step, key: Label) {
    (step.LoadDone? || step.Abandon?) && step.key == key
  }

  lemma {:induction false} StaysInFlight(r: Run, i: nat, j: nat, key: Label)
    requires IsRun(r) && i <= j < |r.states| && key in r.states[i].loading
    requires forall k | i <= k < j :: !EndsLoadOf(r.steps[k], key)
    ensures key in r.states[j].loading && r.states[j].loading[key] == r.states[i].loading[key]
  {
    if i < j {
      StaysInFlight(r, i, j - 1, key);
      assert IsStep(r.cfg, r.states[j - 1], r.steps[j - 1], r.states[j]);
    }
  }

  /** Single flight: however many calls ask for a key, a load of it begins only after the
      load before it has ended or was abandoned. */
  lemma OneLoadInFlight(r: Run, i: nat, j: nat, key: Label)
    requires IsRun(r) && i < j < |r.steps|
    requires StartsLoadOf(r.cfg, r.states[i], r.steps[i], key) && StartsLoadOf(r.cfg, r.states[j], r.steps[j], key)
    ensures exists k :: i < k < j && EndsLoadOf(r.steps[k], key)
  {
    assert IsStep(r.cfg, r.states[i], r.steps[i], r.states[i + 1]);
    if forall k | i < k < j :: !EndsLoadOf(r.steps[k], key) {
      StaysInFlight(r, i + 1, j, key);
    }
  }
}
