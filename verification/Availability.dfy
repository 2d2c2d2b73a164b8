/** When a bearer request fails and when it succeeds: every failure has its reason in the token or in the
    database, and requests that meet nothing in their way are answered, from the cache where it can answer. */
module Availability {
  import opened Common
  import opened Invalidation
  import opened TokenCache
  import opened Authentication
  import opened Runs

  // ---------------------------------------------------------------- runs put together

  function StepOf(cfg: Config): (State, Step) -> State {
    (s: State, step: Step) => if Enabled(s, step) then Authentication.Apply(cfg, s, step) else s
  }

  lemma {:induction false} FollowsIsChain(cfg: Config, s: State, steps: seq<Step>, last: State)
    ensures Follows(cfg, s, steps, last) <==> Chain(Enabled, StepOf(cfg), s, steps, last)
    decreases |steps|
  {
    if steps != [] && Enabled(s, steps[0]) {
      FollowsIsChain(cfg, Authentication.Apply(cfg, s, steps[0]), steps[1..], last);
    }
  }

  lemma FollowsBoth(cfg: Config, s: State, first: seq<Step>, middle: State, second: seq<Step>, last: State)
    requires Follows(cfg, s, first, middle) && Follows(cfg, middle, second, last)
    ensures Follows(cfg, s, first + second, last)
  {
    FollowsIsChain(cfg, s, first, middle);
    FollowsIsChain(cfg, middle, second, last);
    ChainBoth(Enabled, StepOf(cfg), s, first, middle, second, last);
    FollowsIsChain(cfg, s, first + second, last);
  }

  lemma FollowsThree(cfg: Config, s: State, first: seq<Step>, second: State, middle: seq<Step>, third: State, rest: seq<Step>, last: State)
    requires Follows(cfg, s, first, second) && Follows(cfg, second, middle, third) && Follows(cfg, third, rest, last)
    ensures Follows(cfg, s, first + middle + rest, last)
  {
    FollowsBoth(cfg, s, first, second, middle, third);
    FollowsBoth(cfg, s, first + middle, third, rest, last);
  }

  lemma NextStep(cfg: Config, all: seq<Step>, n: nat, s: State, last: State)
    requires n < |all| && Follows(cfg, s, all[n..], last)
    ensures Enabled(s, all[n]) && Follows(cfg, Authentication.Apply(cfg, s, all[n]), all[n + 1..], last)
  {
    assert all[n..][1..] == all[n + 1..];
  }

  // ---------------------------------------------------------------- every failure has its reason

  /** The token does not decode, or its expiry second has come. */
  predicate Unusable(cfg: Config, token: Token, decodedAt: nat, nowSeconds: nat) {
    DecodeAt(cfg, token, decodedAt).None? || DecodeAt(cfg, token, decodedAt).value.expiresAt <= nowSeconds
  }

  /** The reason why a request fails or is about to. */
  function CauseOf(phase: Phase): Option<Cause> {
    match phase
    case Rejecting(decodedAt, nowSeconds) => Some(BadToken(decodedAt, nowSeconds))
    case Done(Failed(cause)) => Some(cause)
    case _ => None
  }

  /** The token was unusable, or an authoritative load that knows every commit announced before the request
      began gave nothing. */
  predicate Justified(cfg: Config, t: Tracker, r: Request, cause: Cause) {
    match cause
    case BadToken(decodedAt, nowSeconds) => Unusable(cfg, r.token, decodedAt, nowSeconds)
    case NoSession(version, at) => r.floor <= version <= t.version && Load(cfg, r.token, version, at) == None
  }

  /** The step of the request that found the reason. */
  function CauseStep(id: nat, cause: Cause): Step {
    match cause
    case BadToken(decodedAt, nowSeconds) => Check(id, decodedAt, nowSeconds)
    case NoSession(_, at) => QueryDatabase(id, at)
  }

  predicate CauseSound(cfg: Config, done: seq<Step>, t: Tracker, id: nat, r: Request) {
    && r.floor <= t.version
    && (CauseOf(r.phase).Some? ==> Justified(cfg, t, r, CauseOf(r.phase).value) && CauseStep(id, CauseOf(r.phase).value) in done)
  }

  predicate FailInv(cfg: Config, done: seq<Step>, s: State) {
    && Consistent(s.tracker)
    && forall id :: id in s.requests ==> CauseSound(cfg, done, s.tracker, id, s.requests[id])
  }

  lemma PhaseKeepsCause(cfg: Config, s: State, step: Step)
    requires Enabled(s, step) && !step.Environment? && !step.Begin?
    ensures var r, cause := s.requests[step.id], CauseOf(PhaseAfter(cfg, s, step));
            cause.Some? ==>
              || cause == CauseOf(r.phase)
              || (step == CauseStep(step.id, cause.value) && (r.floor <= s.tracker.version ==> Justified(cfg, s.tracker, r, cause.value)))
  {
  }

  lemma MovedRequestIsSound(cfg: Config, done: seq<Step>, s: State, step: Step)
    requires FailInv(cfg, done, s) && Enabled(s, step) && !step.Environment? && !step.Begin?
    ensures CauseSound(cfg, done + [step], s.tracker, step.id, s.requests[step.id].(phase := PhaseAfter(cfg, s, step)))
  {
    assert CauseSound(cfg, done, s.tracker, step.id, s.requests[step.id]);
    PhaseKeepsCause(cfg, s, step);
  }

  lemma StepKeepsFailInv(cfg: Config, done: seq<Step>, s: State, step: Step)
    requires FailInv(cfg, done, s) && Enabled(s, step)
    ensures FailInv(cfg, done + [step], Authentication.Apply(cfg, s, step))
  {
    var next := Authentication.Apply(cfg, s, step);
    if step.Environment? {
      StepIsLater(s.tracker, step.step);
    } else if !step.Begin? {
      MovedRequestIsSound(cfg, done, s, step);
    }
    forall id | id in next.requests ensures CauseSound(cfg, done + [step], next.tracker, id, next.requests[id]) {
      if step.Environment? || id != step.id {
        assert next.requests[id] == s.requests[id] && CauseSound(cfg, done, s.tracker, id, s.requests[id]);
      }
    }
  }

  lemma {:induction false} RunKeepsFailInv(cfg: Config, all: seq<Step>, n: nat, s: State, last: State)
    requires n <= |all| && Follows(cfg, s, all[n..], last) && FailInv(cfg, all[..n], s)
    ensures FailInv(cfg, all, last)
    decreases |all| - n
  {
    if n == |all| {
      assert all[..n] == all;
    } else {
      NextStep(cfg, all, n, s, last);
      StepKeepsFailInv(cfg, all[..n], s, all[n]);
      assert all[..n + 1] == all[..n] + [all[n]];
      RunKeepsFailInv(cfg, all, n + 1, Authentication.Apply(cfg, s, all[n]), last);
    }
  }

  /** In every interleaving a request fails only for a reason that one of its own steps found: its token did
      not decode or had reached its expiry second at the clock read for the check, or its own query, at a
      version no older than the commits announced before the request began, gave no session for it. */
  lemma FailureIsJustified(cfg: Config, start: Tracker, steps: seq<Step>, last: State, id: nat)
    requires Returned(start) && Follows(cfg, Init(start), steps, last)
    requires id in last.requests && last.requests[id].phase.Done? && last.requests[id].phase.outcome.Failed?
    ensures var r, cause := last.requests[id], last.requests[id].phase.outcome.cause;
            Justified(cfg, last.tracker, r, cause) && CauseStep(id, cause) in steps
  {
    ReturnedIsConsistent(start);
    assert steps[0..] == steps && steps[..0] == [];
    RunKeepsFailInv(cfg, steps, 0, Init(start), last);
    assert CauseSound(cfg, steps, last.tracker, id, last.requests[id]);
  }

  /** What the check of a cached entry leads to: another generation or other claims lead to a load, an
      unusable token to a rejection, and everything else to a hit with the cached facts. */
  lemma CheckLeadsTo(cfg: Config, token: Token, phase: Phase, decodedAt: nat, nowSeconds: nat)
    requires phase.Checking?
    ensures var next := AfterCheck(cfg, token, phase, decodedAt, nowSeconds);
            && (phase.entry.epoch != phase.current.generation ==> next == Loading(Some(phase.current)))
            && (phase.entry.epoch == phase.current.generation && Unusable(cfg, token, decodedAt, nowSeconds) ==>
                  next == Rejecting(decodedAt, nowSeconds))
            && (phase.entry.epoch == phase.current.generation && !Unusable(cfg, token, decodedAt, nowSeconds) ==>
                  if Matches(phase.entry.verified, DecodeAt(cfg, token, decodedAt).value)
                  then next == Done(Hit(Renewed(phase.entry.verified, DecodeAt(cfg, token, decodedAt).value), phase.current, phase.lookedUpMs))
                  else next == Loading(Some(phase.current)))
  {
  }

  /** `matches_claims`: user, session and tenant agree. */
  predicate Matches(v: Verified, c: Claims) {
    v.user == c.subject && v.session == c.session && v.tenant == c.tenant
  }

  /** The cached facts with the times of the presented token. */
  function Renewed(v: Verified, c: Claims): Verified {
    v.(issuedAtSeconds := c.issuedAt, expiresAtSeconds := c.expiresAt)
  }

  /** No request waits for another: as long as it is not done, one of its own steps is possible. */
  lemma RequestCanGoOn(s: State, id: nat) returns (step: Step)
    requires id in s.requests && !s.requests[id].phase.Done?
    ensures Enabled(s, step) && !step.Environment? && !step.Begin? && step.id == id
  {
    match s.requests[id].phase
    case Begun => step := ReadHealth(id);
    case SawHealth => step := ReadGeneration(id);
    case LookingUp(_) => step := LookUp(id, 0, 0);
    case Checking(_, _, _) => step := Check(id, 0, 0);
    case Rejecting(_, _) => step := Remove(id);
    case Loading(_) => step := QueryDatabase(id, Reading(0, 0, 0));
    case HasLoaded(_, _) => step := ReadHealth(id);
    case SawHealthAgain(_, _) => step := ReadGeneration(id);
    case Storing(_, _) => step := StoreToken(id, 0);
  }

  // ---------------------------------------------------------------- requests that are not interrupted

  /** The state with one request as given. */
  function With(s: State, id: nat, r: Request): State {
    s.(requests := s.requests[id := r])
  }

  function NewRequest(s: State, token: Token, phase: Phase): Request {
    Request(token, Floor(s.tracker), Healthy(s.tracker), phase)
  }

  function StartSteps(id: nat, token: Token): seq<Step> {
    [Begin(id, token), ReadHealth(id), ReadGeneration(id)]
  }

  lemma RequestStarts(cfg: Config, s: State, id: nat, token: Token)
    requires Healthy(s.tracker) && id !in s.requests
    ensures Follows(cfg, s, StartSteps(id, token), With(s, id, NewRequest(s, token, LookingUp(Some(See(s.tracker))))))
  {
    var steps, last := StartSteps(id, token), With(s, id, NewRequest(s, token, LookingUp(Some(See(s.tracker)))));
    var s1 := Authentication.Apply(cfg, s, steps[0]);
    var s2 := Authentication.Apply(cfg, s1, steps[1]);
    assert Authentication.Apply(cfg, s2, steps[2]) == last;
    assert Follows(cfg, s2, steps[2..], last);
    assert Follows(cfg, s1, steps[1..], last);
  }

  /** The cache can answer the token: an entry of it may be served, under the current generation, and the
      token is usable and matches it. */
  predicate CanAnswer(cfg: Config, s: State, token: Token, nowSeconds: nat, nowMs: nat, decodedAt: nat, checkedAt: nat) {
    var found := Found(s.cache, cfg.digest(token), nowSeconds, nowMs, cfg.limits);
    && found.Some? && found.value.epoch == See(s.tracker).generation
    && !Unusable(cfg, token, decodedAt, checkedAt)
    && Matches(found.value.verified, DecodeAt(cfg, token, decodedAt).value)
  }

  /** The answer of the cache. */
  function Answer(cfg: Config, s: State, token: Token, nowSeconds: nat, nowMs: nat, decodedAt: nat, checkedAt: nat): Verified
    requires CanAnswer(cfg, s, token, nowSeconds, nowMs, decodedAt, checkedAt)
  {
    Renewed(Found(s.cache, cfg.digest(token), nowSeconds, nowMs, cfg.limits).value.verified, DecodeAt(cfg, token, decodedAt).value)
  }

  function HitSteps(id: nat, nowSeconds: nat, nowMs: nat, decodedAt: nat, checkedAt: nat): seq<Step> {
    [LookUp(id, nowSeconds, nowMs), Check(id, decodedAt, checkedAt)]
  }

  lemma RequestHits(cfg: Config, s: State, id: nat, token: Token, nowSeconds: nat, nowMs: nat, decodedAt: nat, checkedAt: nat)
    requires CanAnswer(cfg, s, token, nowSeconds, nowMs, decodedAt, checkedAt)
    ensures var waiting := With(s, id, NewRequest(s, token, LookingUp(Some(See(s.tracker)))));
            var hit := Hit(Answer(cfg, s, token, nowSeconds, nowMs, decodedAt, checkedAt), See(s.tracker), nowMs);
            var after := s.(cache := AfterLookup(s.cache, cfg.digest(token), nowSeconds, nowMs, cfg.limits));
            Follows(cfg, waiting, HitSteps(id, nowSeconds, nowMs, decodedAt, checkedAt), With(after, id, NewRequest(s, token, Done(hit))))
  {
    var steps := HitSteps(id, nowSeconds, nowMs, decodedAt, checkedAt);
    var waiting := With(s, id, NewRequest(s, token, LookingUp(Some(See(s.tracker)))));
    var hit := Hit(Answer(cfg, s, token, nowSeconds, nowMs, decodedAt, checkedAt), See(s.tracker), nowMs);
    var last := With(s.(cache := AfterLookup(s.cache, cfg.digest(token), nowSeconds, nowMs, cfg.limits)), id, NewRequest(s, token, Done(hit)));
    var s1 := Authentication.Apply(cfg, waiting, steps[0]);
    assert Authentication.Apply(cfg, s1, steps[1]) == last;
    assert Follows(cfg, s1, steps[1..], last);
  }

  /** From every state, a request for a token that the cache can answer, met by no other step, is answered
      from the cache with the cached facts and the times of the presented token. */
  lemma WarmRequestHits(cfg: Config, s: State, id: nat, token: Token, nowSeconds: nat, nowMs: nat, decodedAt: nat, checkedAt: nat)
    returns (last: State)
    requires Healthy(s.tracker) && id !in s.requests && CanAnswer(cfg, s, token, nowSeconds, nowMs, decodedAt, checkedAt)
    ensures Follows(cfg, s, StartSteps(id, token) + HitSteps(id, nowSeconds, nowMs, decodedAt, checkedAt), last)
    ensures id in last.requests
    ensures last.requests[id].phase == Done(Hit(Answer(cfg, s, token, nowSeconds, nowMs, decodedAt, checkedAt), See(s.tracker), nowMs))
  {
    RequestStarts(cfg, s, id, token);
    RequestHits(cfg, s, id, token, nowSeconds, nowMs, decodedAt, checkedAt);
    var waiting := With(s, id, NewRequest(s, token, LookingUp(Some(See(s.tracker)))));
    var hit := Hit(Answer(cfg, s, token, nowSeconds, nowMs, decodedAt, checkedAt), See(s.tracker), nowMs);
    last := With(s.(cache := AfterLookup(s.cache, cfg.digest(token), nowSeconds, nowMs, cfg.limits)), id, NewRequest(s, token, Done(hit)));
    FollowsBoth(cfg, s, StartSteps(id, token), waiting, HitSteps(id, nowSeconds, nowMs, decodedAt, checkedAt), last);
  }

  function LoadSteps(id: nat, nowSeconds: nat, nowMs: nat, at: Reading): seq<Step> {
    [LookUp(id, nowSeconds, nowMs), QueryDatabase(id, at)]
  }

  /** Nothing in the cache may be served for the token, and the database answers it. */
  predicate MustLoad(cfg: Config, s: State, token: Token, nowSeconds: nat, nowMs: nat, at: Reading) {
    && Found(s.cache, cfg.digest(token), nowSeconds, nowMs, cfg.limits).None?
    && Load(cfg, token, s.tracker.version, at).Some?
  }

  /** The state without a stale entry of the token. */
  function Cleared(cfg: Config, s: State, token: Token): State {
    s.(cache := Without(s.cache, cfg.digest(token)))
  }

  lemma RequestLoads(cfg: Config, s: State, id: nat, token: Token, nowSeconds: nat, nowMs: nat, at: Reading)
    requires MustLoad(cfg, s, token, nowSeconds, nowMs, at)
    ensures var seen := Some(See(s.tracker));
            Follows(cfg, With(s, id, NewRequest(s, token, LookingUp(seen))), LoadSteps(id, nowSeconds, nowMs, at),
                    With(Cleared(cfg, s, token), id, NewRequest(s, token, HasLoaded(seen, Load(cfg, token, s.tracker.version, at).value))))
  {
    var steps, seen := LoadSteps(id, nowSeconds, nowMs, at), Some(See(s.tracker));
    var last := With(Cleared(cfg, s, token), id, NewRequest(s, token, HasLoaded(seen, Load(cfg, token, s.tracker.version, at).value)));
    var s1 := Authentication.Apply(cfg, With(s, id, NewRequest(s, token, LookingUp(seen))), steps[0]);
    assert Authentication.Apply(cfg, s1, steps[1]) == last;
    assert Follows(cfg, s1, steps[1..], last);
  }

  function StoreSteps(id: nat, nowMs: nat): seq<Step> {
    [ReadHealth(id), ReadGeneration(id), StoreToken(id, nowMs)]
  }

  lemma RequestStores(cfg: Config, s: State, id: nat, r: Request, verified: Verified, nowMs: nat)
    requires Healthy(s.tracker) && r.phase == HasLoaded(Some(See(s.tracker)), verified)
    ensures var entry := Entry(cfg.digest(r.token), verified, See(s.tracker).generation, nowMs);
            Follows(cfg, With(s, id, r), StoreSteps(id, nowMs),
                    With(s.(cache := AfterStore(s.cache, entry, cfg.limits)), id, r.(phase := Done(Loaded(verified)))))
  {
    var steps, entry := StoreSteps(id, nowMs), Entry(cfg.digest(r.token), verified, See(s.tracker).generation, nowMs);
    var last := With(s.(cache := AfterStore(s.cache, entry, cfg.limits)), id, r.(phase := Done(Loaded(verified))));
    var s1 := Authentication.Apply(cfg, With(s, id, r), steps[0]);
    var s2 := Authentication.Apply(cfg, s1, steps[1]);
    assert Authentication.Apply(cfg, s2, steps[2]) == last;
    assert Follows(cfg, s2, steps[2..], last);
    assert Follows(cfg, s1, steps[1..], last);
  }

  /** From every state, a request that must load, met by no other step, is answered with what the database
      says, and leaves these facts in the cache under the current generation. */
  lemma ColdRequestStores(cfg: Config, s: State, id: nat, token: Token, nowSeconds: nat, nowMs: nat, at: Reading, storedMs: nat)
    returns (last: State)
    requires Healthy(s.tracker) && id !in s.requests && MustLoad(cfg, s, token, nowSeconds, nowMs, at)
    ensures Follows(cfg, s, StartSteps(id, token) + LoadSteps(id, nowSeconds, nowMs, at) + StoreSteps(id, storedMs), last)
    ensures last.tracker == s.tracker && id in last.requests
    ensures last.requests[id].phase == Done(Loaded(Load(cfg, token, s.tracker.version, at).value))
    ensures cfg.limits.capacity > 0 ==>
              Entry(cfg.digest(token), Load(cfg, token, s.tracker.version, at).value, See(s.tracker).generation, storedMs) in last.cache
  {
    var verified, seen := Load(cfg, token, s.tracker.version, at).value, Some(See(s.tracker));
    var cleared, r := Cleared(cfg, s, token), NewRequest(s, token, HasLoaded(seen, verified));
    var entry := Entry(cfg.digest(token), verified, See(s.tracker).generation, storedMs);
    last := With(cleared.(cache := AfterStore(cleared.cache, entry, cfg.limits)), id, r.(phase := Done(Loaded(verified))));
    RequestStarts(cfg, s, id, token);
    RequestLoads(cfg, s, id, token, nowSeconds, nowMs, at);
    RequestStores(cfg, cleared, id, r, verified, storedMs);
    FollowsThree(cfg, s, StartSteps(id, token), With(s, id, NewRequest(s, token, LookingUp(seen))),
                 LoadSteps(id, nowSeconds, nowMs, at), With(cleared, id, r), StoreSteps(id, storedMs), last);
    StoredIsLast(cleared.cache, entry, cfg.limits);
  }

  lemma StoredIsLast(cache: seq<Entry>, entry: Entry, limits: Limits)
    ensures limits.capacity > 0 ==> entry in AfterStore(cache, entry, limits)
  {
    var pushed := Without(cache, entry.key) + [entry];
    if limits.capacity > 0 {
      NewestKeepsTheBack(pushed, |pushed| - 1, limits.capacity);
    }
  }
}
