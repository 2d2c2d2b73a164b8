/** Bearer authentication at the native ingress as an interleaving of atomic steps: database
    commits, tracker moves and any number of requests, each of which reads the epoch, looks
    into the token cache, and either reuses an entry or loads, re-reads the epoch and stores. */
module Authentication {
  import opened Common
  import opened Invalidation
  import opened TokenCache

  type Token = string

  datatype Claims = Claims(
    subject: string,
    session: string,
    keyId: string,
    tenant: Option<string>,
    issuedAt: nat,
    expiresAt: nat)

  datatype SessionFacts = SessionFacts(user: string, tenant: Option<string>, permissions: set<string>)

  /** `digest` is SHA-256, `decode` the JWT signature, issuer and audience check, `inForce` the expiry check
      of that library at a clock value, and `sessions` the authoritative query: one session at one
      database version and clock value. The source compares the two epochs (`comparesEpochs`); the other
      value shows what that is for. */
  datatype Config = Config(
    limits: Limits,
    digest: Token -> Key,
    decode: Token -> Option<Claims>,
    inForce: (Claims, nat) -> bool,
    sessions: (string, string, nat, nat) -> Option<SessionFacts>,
    comparesEpochs: bool)

  /** `decode_verified_access_token` at a clock value. */
  function DecodeAt(cfg: Config, token: Token, nowSeconds: nat): Option<Claims> {
    match cfg.decode(token)
    case None => None
    case Some(c) => if cfg.inForce(c, nowSeconds) then Some(c) else None
  }

  /** `AccessTokenVerifier::verify` against one database version, with the clock as read during it. */
  function Load(cfg: Config, token: Token, version: nat, at: Reading): Option<Verified> {
    match DecodeAt(cfg, token, at.decodedAt)
    case None => None
    case Some(c) =>
      match cfg.sessions(c.session, c.keyId, version, at.queriedAt)
      case None => None
      case Some(f) =>
        if c.subject != f.user || c.tenant != f.tenant then None
        else Some(Verified(c.subject, f.tenant, c.session, f.permissions, c.issuedAt, c.expiresAt, version, at))
  }

  /** The facts are those of an authoritative load of the token. */
  predicate IsLoadOf(cfg: Config, token: Token, verified: Verified) {
    Load(cfg, token, verified.snapshot, verified.reading) == Some(verified)
  }

  datatype CachedCheck = Reuse(verified: Verified) | Reload | Reject

  /** `AccessTokenVerifier::verify_invalidation_cached`. */
  function VerifyCached(cfg: Config, token: Token, entry: Entry, current: nat, decodedAt: nat, nowSeconds: nat): CachedCheck {
    if entry.epoch != current then Reload
    else match DecodeAt(cfg, token, decodedAt)
      case None => Reject
      case Some(c) =>
        var v := entry.verified;
        if nowSeconds >= c.expiresAt then Reject
        else if v.user != c.subject || v.session != c.session || v.tenant != c.tenant then Reload
        else Reuse(v.(issuedAtSeconds := c.issuedAt, expiresAtSeconds := c.expiresAt))
  }

  /** Why a request failed: the token as it was checked, or the load that gave nothing. */
  datatype Cause = BadToken(decodedAt: nat, nowSeconds: nat) | NoSession(version: nat, at: Reading)

  /** `lookedUpMs` and `cause` are history variables: the clock at the lookup, and why the request failed. */
  datatype Outcome =
    | Hit(verified: Verified, seen: Seen, lookedUpMs: nat)
    | Loaded(verified: Verified)
    | Failed(cause: Cause)

  /** Where a request stands. `current_epoch` reads the health flag and then the generation,
      in two steps. */
  datatype Phase =
    | Begun
    | SawHealth
    | LookingUp(before: Option<Seen>)
    | Checking(current: Seen, entry: Entry, lookedUpMs: nat)
    | Rejecting(decodedAt: nat, nowSeconds: nat)
    | Loading(before: Option<Seen>)
    | HasLoaded(before: Option<Seen>, verified: Verified)
    | SawHealthAgain(before: Option<Seen>, verified: Verified)
    | Storing(epoch: nat, verified: Verified)
    | Done(outcome: Outcome)

  /** `floor` and `healthyAtStart` are history variables of the request's first step. */
  datatype Request = Request(token: Token, floor: nat, healthyAtStart: bool, phase: Phase)

  datatype State = State(tracker: Tracker, cache: seq<Entry>, requests: map<nat, Request>)

  datatype Step =
    | Environment(step: TrackerStep)
    | Begin(id: nat, token: Token)
    | ReadHealth(id: nat)
    | ReadGeneration(id: nat)
    | LookUp(id: nat, nowSeconds: nat, nowMs: nat)
    | Check(id: nat, decodedAt: nat, nowSeconds: nat)
    | Remove(id: nat)
    | QueryDatabase(id: nat, at: Reading)
    | StoreToken(id: nat, nowMs: nat)

  /** The service starts with the tracker that `connect` returned. */
  function Init(tracker: Tracker): State {
    State(tracker, [], map[])
  }

  predicate Enabled(s: State, step: Step) {
    match step
    case Environment(t) => CanStep(s.tracker, t)
    case Begin(id, _) => id !in s.requests
    case ReadHealth(id) => id in s.requests && (s.requests[id].phase.Begun? || s.requests[id].phase.HasLoaded?)
    case ReadGeneration(id) => id in s.requests && (s.requests[id].phase.SawHealth? || s.requests[id].phase.SawHealthAgain?)
    case LookUp(id, _, _) => id in s.requests && s.requests[id].phase.LookingUp?
    case Check(id, _, _) => id in s.requests && s.requests[id].phase.Checking?
    case Remove(id) => id in s.requests && s.requests[id].phase.Rejecting?
    case QueryDatabase(id, _) => id in s.requests && s.requests[id].phase.Loading?
    case StoreToken(id, _) => id in s.requests && s.requests[id].phase.Storing?
  }

  function Goto(s: State, id: nat, phase: Phase): State
    requires id in s.requests
  {
    s.(requests := s.requests[id := s.requests[id].(phase := phase)])
  }

  /** After a load of the health flag. */
  function AfterHealth(t: Tracker, phase: Phase): Phase {
    match phase
    case HasLoaded(before, verified) => if Healthy(t) then SawHealthAgain(before, verified) else Done(Loaded(verified))
    case _ => if Healthy(t) then SawHealth else LookingUp(None)
  }

  /** After a load of the generation. */
  function AfterGeneration(cfg: Config, t: Tracker, phase: Phase): Phase {
    match phase
    case SawHealthAgain(before, verified) =>
      var after := See(t).generation;
      if before.Some? && (before.value.generation == after || !cfg.comparesEpochs)
      then Storing(after, verified) else Done(Loaded(verified))
    case _ => LookingUp(Some(See(t)))
  }

  function AfterLookingUp(before: Option<Seen>, found: Option<Entry>, nowMs: nat): Phase {
    if found.Some? && before.Some? then Checking(before.value, found.value, nowMs) else Loading(before)
  }

  function AfterCheck(cfg: Config, token: Token, phase: Phase, decodedAt: nat, nowSeconds: nat): Phase
    requires phase.Checking?
  {
    var current := phase.current;
    match VerifyCached(cfg, token, phase.entry, current.generation, decodedAt, nowSeconds)
    case Reuse(verified) => Done(Hit(verified, current, phase.lookedUpMs))
    case Reload => Loading(Some(current))
    case Reject => Rejecting(decodedAt, nowSeconds)
  }

  function AfterQuery(cfg: Config, token: Token, before: Option<Seen>, version: nat, at: Reading): Phase {
    match Load(cfg, token, version, at)
    case None => Done(Failed(NoSession(version, at)))
    case Some(verified) => HasLoaded(before, verified)
  }

  /** What a step does to the token cache, if anything. */
  function CacheOp(cfg: Config, s: State, step: Step): Option<Op>
    requires Enabled(s, step)
  {
    match step
    case LookUp(id, nowSeconds, nowMs) => Some(TokenCache.Lookup(cfg.digest(s.requests[id].token), nowSeconds, nowMs))
    case Remove(id) => Some(Forget(cfg.digest(s.requests[id].token)))
    case StoreToken(id, nowMs) =>
      var r := s.requests[id];
      Some(TokenCache.Store(Entry(cfg.digest(r.token), r.phase.verified, r.phase.epoch, nowMs)))
    case _ => None
  }

  function CacheAfter(cfg: Config, s: State, step: Step): seq<Entry>
    requires Enabled(s, step)
  {
    match CacheOp(cfg, s, step)
    case Some(op) => TokenCache.Apply(s.cache, op, cfg.limits)
    case None => s.cache
  }

  /** Where a step takes the request that makes it. */
  function PhaseAfter(cfg: Config, s: State, step: Step): Phase
    requires Enabled(s, step) && !step.Environment? && !step.Begin?
  {
    var r := s.requests[step.id];
    match step
    case ReadHealth(_) => AfterHealth(s.tracker, r.phase)
    case ReadGeneration(_) => AfterGeneration(cfg, s.tracker, r.phase)
    case LookUp(_, nowSeconds, nowMs) =>
      AfterLookingUp(r.phase.before, Found(s.cache, cfg.digest(r.token), nowSeconds, nowMs, cfg.limits), nowMs)
    case Check(_, decodedAt, nowSeconds) => AfterCheck(cfg, r.token, r.phase, decodedAt, nowSeconds)
    case Remove(_) => Done(Failed(BadToken(r.phase.decodedAt, r.phase.nowSeconds)))
    case QueryDatabase(_, at) => AfterQuery(cfg, r.token, r.phase.before, s.tracker.version, at)
    case StoreToken(_, _) => Done(Loaded(r.phase.verified))
  }

  function Apply(cfg: Config, s: State, step: Step): State
    requires Enabled(s, step)
  {
    match step
    case Environment(t) => s.(tracker := StepTracker(s.tracker, t))
    case Begin(id, token) =>
      s.(requests := s.requests[id := Request(token, Floor(s.tracker), Healthy(s.tracker), Begun)])
    case _ => Goto(s.(cache := CacheAfter(cfg, s, step)), step.id, PhaseAfter(cfg, s, step))
  }

  predicate Follows(cfg: Config, s: State, steps: seq<Step>, last: State)
    decreases |steps|
  {
    if steps == [] then s == last
    else Enabled(s, steps[0]) && Follows(cfg, Apply(cfg, s, steps[0]), steps[1..], last)
  }

  // ---------------------------------------------------------------- the cache of an interleaving

  /** The cache operations of a run, in order. */
  function CacheOps(cfg: Config, s: State, steps: seq<Step>, last: State): seq<Op>
    requires Follows(cfg, s, steps, last)
    decreases |steps|
  {
    if steps == [] then [] else
      var rest := CacheOps(cfg, Apply(cfg, s, steps[0]), steps[1..], last);
      match CacheOp(cfg, s, steps[0])
      case Some(op) => [op] + rest
      case None => rest
  }

  lemma CacheStep(cfg: Config, s: State, step: Step)
    requires Enabled(s, step)
    ensures Apply(cfg, s, step).cache == CacheAfter(cfg, s, step)
  {
  }

  lemma {:induction false} CacheRunsOn(cfg: Config, s: State, steps: seq<Step>, last: State)
    requires Follows(cfg, s, steps, last)
    ensures last.cache == RunFrom(s.cache, CacheOps(cfg, s, steps, last), cfg.limits)
    decreases |steps|
  {
    if steps != [] {
      var rest := CacheOps(cfg, Apply(cfg, s, steps[0]), steps[1..], last);
      CacheStep(cfg, s, steps[0]);
      CacheRunsOn(cfg, Apply(cfg, s, steps[0]), steps[1..], last);
      match CacheOp(cfg, s, steps[0])
      case Some(op) => assert ([op] + rest)[1..] == rest;
      case None =>
    }
  }

  /** In every interleaving the shared cache is what the cache operations of all requests, in the order
      in which they took the lock, make of an empty one. So keys are unique, the size is within capacity
      and the order is last-touch order at every moment. */
  lemma SharedCacheIsARun(cfg: Config, start: Tracker, steps: seq<Step>, last: State)
    requires Follows(cfg, Init(start), steps, last)
    ensures var ops := CacheOps(cfg, Init(start), steps, last);
            && last.cache == Run(ops, cfg.limits)
            && UniqueKeys(last.cache) && |last.cache| <= cfg.limits.capacity
            && LastTouchOrder(last.cache, Touches(ops, cfg.limits))
  {
    var ops := CacheOps(cfg, Init(start), steps, last);
    CacheRunsOn(cfg, Init(start), steps, last);
    RunFromStart(ops, cfg.limits);
    RunKeepsOrder(ops, cfg.limits);
  }

  /** In every interleaving, an entry handed to a request was stored by the last write to its key, at most
      `revalidateMs` earlier, if the clock of the cache operations does not run back. */
  lemma SharedEntryIsYoung(cfg: Config, start: Tracker, steps: seq<Step>, s: State, id: nat, nowSeconds: nat, nowMs: nat)
    requires Follows(cfg, Init(start), steps, s) && Enabled(s, LookUp(id, nowSeconds, nowMs))
    requires ClockNeverRunsBack(CacheOps(cfg, Init(start), steps, s) + [CacheOp(cfg, s, LookUp(id, nowSeconds, nowMs)).value])
    requires PhaseAfter(cfg, s, LookUp(id, nowSeconds, nowMs)).Checking?
    ensures var ops, entry := CacheOps(cfg, Init(start), steps, s), PhaseAfter(cfg, s, LookUp(id, nowSeconds, nowMs)).entry;
            exists m: nat :: LastWrite(ops, m) && ops[m].entry == entry && entry.key == cfg.digest(s.requests[id].token)
                        && entry.validatedAtMs <= nowMs <= entry.validatedAtMs + cfg.limits.revalidateMs
                        && nowSeconds < entry.verified.expiresAtSeconds
  {
    SharedCacheIsARun(cfg, start, steps, s);
    ServedOnlyWhileFresh(CacheOps(cfg, Init(start), steps, s), cfg.digest(s.requests[id].token), nowSeconds, nowMs,
                         cfg.limits, PhaseAfter(cfg, s, LookUp(id, nowSeconds, nowMs)).entry);
  }

  /** In every interleaving, a store drops another key only after at least `capacity` other keys were
      touched, by any request, since that key was. */
  lemma SharedEvictionNeedsTouches(cfg: Config, start: Tracker, steps: seq<Step>, s: State, id: nat, nowMs: nat, key: Key)
    requires Follows(cfg, Init(start), steps, s) && Enabled(s, StoreToken(id, nowMs))
    requires key != cfg.digest(s.requests[id].token) && exists e :: e in s.cache && e.key == key
    requires forall e :: e in Apply(cfg, s, StoreToken(id, nowMs)).cache ==> e.key != key
    ensures var ops := CacheOps(cfg, Init(start), steps, s) + [CacheOp(cfg, s, StoreToken(id, nowMs)).value];
            var log := Touches(ops, cfg.limits);
            && 0 <= LastTouch(log, key)
            && |TouchedSince(log, LastTouch(log, key)) - {key}| >= cfg.limits.capacity
  {
    var ops, op := CacheOps(cfg, Init(start), steps, s), CacheOp(cfg, s, StoreToken(id, nowMs)).value;
    SharedCacheIsARun(cfg, start, steps, s);
    RunOfOneMore(ops, op, cfg.limits);
    EvictionNeedsCapacityTouches(ops, op.entry, key, cfg.limits);
  }

  /** In every interleaving, after a rejected token no cache entry of it is left, and nothing else is gone. */
  lemma RejectionForgetsToken(cfg: Config, start: Tracker, steps: seq<Step>, s: State, id: nat, entry: Entry)
    requires Follows(cfg, Init(start), steps, s) && Enabled(s, Remove(id))
    ensures entry in Apply(cfg, s, Remove(id)).cache <==> entry in s.cache && entry.key != cfg.digest(s.requests[id].token)
  {
    var key := cfg.digest(s.requests[id].token);
    SharedCacheIsARun(cfg, start, steps, s);
    WithoutRemovesKey(s.cache, key);
    if entry.key != key {
      WithoutKeepsOthers(s.cache, key, entry);
    }
  }

  // ---------------------------------------------------------------- the invariant

  /** The tokens presented by the requests of a run. */
  function Presented(steps: seq<Step>): set<Token> {
    set step | step in steps && step.Begin? :: step.token
  }

  /** No two of these tokens have the same digest. */
  ghost predicate Collisionless(cfg: Config, tokens: set<Token>) {
    forall a, b :: a in tokens && b in tokens && cfg.digest(a) == cfg.digest(b) ==> a == b
  }

  /** The entry holds what a load of one of these tokens returned, under a sound label. */
  ghost predicate EntrySound(cfg: Config, tokens: set<Token>, t: Tracker, entry: Entry)
    requires Consistent(t)
  {
    && (exists token :: token in tokens && cfg.digest(token) == entry.key
                        && IsLoadOf(cfg, token, entry.verified))
    && LabelSound(t, entry.epoch, entry.verified.snapshot)
  }

  predicate LoadedSound(cfg: Config, token: Token, floor: nat, verified: Verified) {
    floor <= verified.snapshot && IsLoadOf(cfg, token, verified)
  }

  predicate SeenSound(t: Tracker, floor: nat, seen: Option<Seen>)
    requires Consistent(t)
  {
    seen.Some? ==> SeenBefore(t, seen.value) && floor <= t.history[seen.value.bump]
  }

  ghost predicate PhaseSound(cfg: Config, tokens: set<Token>, t: Tracker, r: Request, phase: Phase)
    requires Consistent(t)
  {
    match phase
    case Begun => true
    case SawHealth => r.healthyAtStart
    case LookingUp(before) => SeenSound(t, r.floor, before) && (before.Some? ==> r.healthyAtStart)
    case Checking(current, entry, _) =>
      && SeenSound(t, r.floor, Some(current)) && r.healthyAtStart
      && EntrySound(cfg, tokens, t, entry) && entry.key == cfg.digest(r.token)
    case Rejecting(_, _) => true
    case Loading(before) => SeenSound(t, r.floor, before) && (before.Some? ==> r.healthyAtStart)
    case HasLoaded(before, verified) =>
      && SeenSound(t, r.floor, before) && LoadedSound(cfg, r.token, r.floor, verified)
      && (before.Some? ==> t.history[before.value.bump] <= verified.snapshot)
    case SawHealthAgain(before, verified) =>
      && SeenSound(t, r.floor, before) && LoadedSound(cfg, r.token, r.floor, verified)
      && (before.Some? ==> t.history[before.value.bump] <= verified.snapshot)
    case Storing(epoch, verified) =>
      LoadedSound(cfg, r.token, r.floor, verified) && LabelSound(t, epoch, verified.snapshot)
    case Done(outcome) =>
      match outcome
      case Hit(verified, seen, _) =>
        && r.healthyAtStart && SeenSound(t, r.floor, Some(seen))
        && LoadedSound(cfg, r.token, t.history[seen.bump], verified)
      case Loaded(verified) => LoadedSound(cfg, r.token, r.floor, verified)
      case Failed(_) => true
  }

  /** What holds of a request whatever its phase. */
  predicate BasicsSound(tokens: set<Token>, t: Tracker, r: Request)
    requires Consistent(t)
  {
    r.token in tokens && r.floor <= t.history[t.bumps] && (!r.healthyAtStart ==> !Healthy(t))
  }

  ghost predicate RequestSound(cfg: Config, tokens: set<Token>, t: Tracker, r: Request)
    requires Consistent(t)
  {
    BasicsSound(tokens, t, r) && PhaseSound(cfg, tokens, t, r, r.phase)
  }

  ghost predicate Inv(cfg: Config, tokens: set<Token>, s: State) {
    && Consistent(s.tracker)
    && UniqueKeys(s.cache)
    && (s.tracker.bumps < GENERATIONS ==>
          && (forall e :: e in s.cache ==> EntrySound(cfg, tokens, s.tracker, e))
          && (forall id :: id in s.requests ==> RequestSound(cfg, tokens, s.tracker, s.requests[id])))
  }

  lemma LaterRequest(cfg: Config, tokens: set<Token>, t: Tracker, u: Tracker, r: Request)
    requires Consistent(t) && Consistent(u) && Later(t, u)
    requires RequestSound(cfg, tokens, t, r)
    ensures RequestSound(cfg, tokens, u, r)
  {
    assert forall i :: 0 <= i < |t.history| ==> t.history[i] == u.history[i];
    assert t.history[t.bumps] <= u.history[u.bumps];
  }

  lemma EnvironmentKeepsInv(cfg: Config, tokens: set<Token>, s: State, t: TrackerStep)
    requires Inv(cfg, tokens, s) && Enabled(s, Environment(t))
    ensures Inv(cfg, tokens, Apply(cfg, s, Environment(t)))
  {
    var next := StepTracker(s.tracker, t);
    StepIsLater(s.tracker, t);
    if next.bumps < GENERATIONS {
      forall e | e in s.cache ensures EntrySound(cfg, tokens, next, e) {
        LaterKeeps(s.tracker, next, See(s.tracker), e.epoch, e.verified.snapshot);
      }
      forall id | id in s.requests ensures RequestSound(cfg, tokens, next, s.requests[id]) {
        LaterRequest(cfg, tokens, s.tracker, next, s.requests[id]);
      }
    }
  }

  // One lemma for each step a request can make: the phase it reaches is sound.

  lemma HealthKeepsPhase(cfg: Config, tokens: set<Token>, t: Tracker, r: Request)
    requires Consistent(t) && RequestSound(cfg, tokens, t, r) && (r.phase.Begun? || r.phase.HasLoaded?)
    ensures PhaseSound(cfg, tokens, t, r, AfterHealth(t, r.phase))
  {
  }

  lemma GenerationKeepsPhase(cfg: Config, tokens: set<Token>, t: Tracker, r: Request)
    requires cfg.comparesEpochs && Consistent(t) && t.bumps < GENERATIONS
    requires RequestSound(cfg, tokens, t, r) && (r.phase.SawHealth? || r.phase.SawHealthAgain?)
    ensures PhaseSound(cfg, tokens, t, r, AfterGeneration(cfg, t, r.phase))
  {
    GenerationDeterminesBump(t.bumps);
    if r.phase.SawHealthAgain? && r.phase.before.Some? {
      GenerationDeterminesBump(r.phase.before.value.bump);
    }
  }

  lemma LookUpKeepsPhase(cfg: Config, tokens: set<Token>, t: Tracker, r: Request, found: Option<Entry>, nowMs: nat)
    requires Consistent(t) && RequestSound(cfg, tokens, t, r) && r.phase.LookingUp?
    requires found.Some? ==> EntrySound(cfg, tokens, t, found.value) && found.value.key == cfg.digest(r.token)
    ensures PhaseSound(cfg, tokens, t, r, AfterLookingUp(r.phase.before, found, nowMs))
  {
  }

  /** An entry that passes the check is a load of this very token, no older than the label says. */
  lemma ReusedIsLoaded(cfg: Config, tokens: set<Token>, t: Tracker, r: Request, decodedAt: nat, nowSeconds: nat)
    requires Collisionless(cfg, tokens) && Consistent(t) && t.bumps < GENERATIONS
    requires RequestSound(cfg, tokens, t, r) && r.phase.Checking?
    requires VerifyCached(cfg, r.token, r.phase.entry, r.phase.current.generation, decodedAt, nowSeconds).Reuse?
    ensures var verified := VerifyCached(cfg, r.token, r.phase.entry, r.phase.current.generation, decodedAt, nowSeconds).verified;
            LoadedSound(cfg, r.token, t.history[r.phase.current.bump], verified)
  {
    var entry, current := r.phase.entry, r.phase.current;
    GenerationDeterminesBump(current.bump);
    var token :| token in tokens && cfg.digest(token) == entry.key
                 && IsLoadOf(cfg, token, entry.verified);
    assert token == r.token;
  }

  lemma CheckKeepsPhase(cfg: Config, tokens: set<Token>, t: Tracker, r: Request, decodedAt: nat, nowSeconds: nat)
    requires Collisionless(cfg, tokens) && Consistent(t) && t.bumps < GENERATIONS
    requires RequestSound(cfg, tokens, t, r) && r.phase.Checking?
    ensures PhaseSound(cfg, tokens, t, r, AfterCheck(cfg, r.token, r.phase, decodedAt, nowSeconds))
  {
    if VerifyCached(cfg, r.token, r.phase.entry, r.phase.current.generation, decodedAt, nowSeconds).Reuse? {
      ReusedIsLoaded(cfg, tokens, t, r, decodedAt, nowSeconds);
    }
  }

  lemma QueryKeepsPhase(cfg: Config, tokens: set<Token>, t: Tracker, r: Request, at: Reading)
    requires Consistent(t) && RequestSound(cfg, tokens, t, r) && r.phase.Loading?
    ensures PhaseSound(cfg, tokens, t, r, AfterQuery(cfg, r.token, r.phase.before, t.version, at))
  {
  }

  /** The phase a request reaches is sound. */
  lemma StepKeepsPhase(cfg: Config, tokens: set<Token>, s: State, step: Step)
    requires cfg.comparesEpochs && Collisionless(cfg, tokens)
    requires Inv(cfg, tokens, s) && s.tracker.bumps < GENERATIONS
    requires Enabled(s, step) && !step.Environment? && !step.Begin?
    ensures PhaseSound(cfg, tokens, s.tracker, s.requests[step.id], PhaseAfter(cfg, s, step))
  {
    var t, r := s.tracker, s.requests[step.id];
    assert RequestSound(cfg, tokens, t, r);
    match step
    case ReadHealth(_) => HealthKeepsPhase(cfg, tokens, t, r);
    case ReadGeneration(_) => GenerationKeepsPhase(cfg, tokens, t, r);
    case LookUp(_, nowSeconds, nowMs) =>
      var found := Found(s.cache, cfg.digest(r.token), nowSeconds, nowMs, cfg.limits);
      assert found.Some? ==> found.value in s.cache;
      LookUpKeepsPhase(cfg, tokens, t, r, found, nowMs);
    case Check(_, decodedAt, nowSeconds) => CheckKeepsPhase(cfg, tokens, t, r, decodedAt, nowSeconds);
    case QueryDatabase(_, at) => QueryKeepsPhase(cfg, tokens, t, r, at);
    case Remove(_) =>
    case StoreToken(_, _) =>
  }

  /** What a request stores is sound. */
  lemma StoredIsSound(cfg: Config, tokens: set<Token>, t: Tracker, r: Request, nowMs: nat)
    requires Consistent(t) && RequestSound(cfg, tokens, t, r) && r.phase.Storing?
    ensures EntrySound(cfg, tokens, t, Entry(cfg.digest(r.token), r.phase.verified, r.phase.epoch, nowMs))
  {
    assert r.token in tokens;
  }

  lemma StepKeepsCache(cfg: Config, tokens: set<Token>, s: State, step: Step)
    requires Inv(cfg, tokens, s) && Enabled(s, step)
    ensures UniqueKeys(CacheAfter(cfg, s, step))
    ensures s.tracker.bumps < GENERATIONS ==>
              forall e :: e in CacheAfter(cfg, s, step) ==> EntrySound(cfg, tokens, s.tracker, e)
  {
    var op := CacheOp(cfg, s, step);
    if op.Some? {
      KeysStayUnique(s.cache, op.value, cfg.limits);
      forall e | e in CacheAfter(cfg, s, step) && s.tracker.bumps < GENERATIONS ensures EntrySound(cfg, tokens, s.tracker, e) {
        EntrySurvivesOrIsStored(s.cache, op.value, cfg.limits, e);
        if step.StoreToken? {
          StoredIsSound(cfg, tokens, s.tracker, s.requests[step.id], step.nowMs);
        }
      }
    }
  }

  lemma BeginKeepsInv(cfg: Config, tokens: set<Token>, s: State, id: nat, token: Token)
    requires Inv(cfg, tokens, s) && Enabled(s, Begin(id, token)) && token in tokens
    ensures Inv(cfg, tokens, Apply(cfg, s, Begin(id, token)))
  {
    var next := Apply(cfg, s, Begin(id, token));
    if s.tracker.bumps < GENERATIONS {
      assert RequestSound(cfg, tokens, s.tracker, next.requests[id]);
      forall other | other in next.requests ensures RequestSound(cfg, tokens, s.tracker, next.requests[other]) {
        assert other != id ==> next.requests[other] == s.requests[other];
      }
    }
  }

  lemma RequestStepKeepsInv(cfg: Config, tokens: set<Token>, s: State, step: Step)
    requires cfg.comparesEpochs && Collisionless(cfg, tokens)
    requires Inv(cfg, tokens, s) && Enabled(s, step) && !step.Environment? && !step.Begin?
    ensures Inv(cfg, tokens, Apply(cfg, s, step))
  {
    var next := Apply(cfg, s, step);
    assert next.cache == CacheAfter(cfg, s, step) && next.tracker == s.tracker;
    StepKeepsCache(cfg, tokens, s, step);
    if s.tracker.bumps < GENERATIONS {
      StepKeepsPhase(cfg, tokens, s, step);
      var r, phase := s.requests[step.id], PhaseAfter(cfg, s, step);
      assert next.requests == s.requests[step.id := r.(phase := phase)];
      MovedRequestIsSound(cfg, tokens, s.tracker, r, phase);
      forall id | id in next.requests ensures RequestSound(cfg, tokens, s.tracker, next.requests[id]) {
        assert id != step.id ==> next.requests[id] == s.requests[id];
      }
    }
  }

  lemma MovedRequestIsSound(cfg: Config, tokens: set<Token>, t: Tracker, r: Request, phase: Phase)
    requires Consistent(t) && BasicsSound(tokens, t, r) && PhaseSound(cfg, tokens, t, r, phase)
    ensures RequestSound(cfg, tokens, t, r.(phase := phase))
  {
  }

  lemma StepKeepsInv(cfg: Config, tokens: set<Token>, s: State, step: Step)
    requires cfg.comparesEpochs && Collisionless(cfg, tokens)
    requires Inv(cfg, tokens, s) && Enabled(s, step) && (step.Begin? ==> step.token in tokens)
    ensures Inv(cfg, tokens, Apply(cfg, s, step))
  {
    match step
    case Environment(t) => EnvironmentKeepsInv(cfg, tokens, s, t);
    case Begin(id, token) => BeginKeepsInv(cfg, tokens, s, id, token);
    case _ => RequestStepKeepsInv(cfg, tokens, s, step);
  }

  lemma {:induction false} RunKeepsInv(cfg: Config, tokens: set<Token>, s: State, steps: seq<Step>, last: State)
    requires cfg.comparesEpochs && Collisionless(cfg, tokens) && Presented(steps) <= tokens
    requires Inv(cfg, tokens, s) && Follows(cfg, s, steps, last)
    ensures Inv(cfg, tokens, last)
    decreases |steps|
  {
    if steps != [] {
      assert steps[0] in steps && (steps[0].Begin? ==> steps[0].token in Presented(steps));
      assert forall step :: step in steps[1..] ==> step in steps;
      StepKeepsInv(cfg, tokens, s, steps[0]);
      RunKeepsInv(cfg, tokens, Apply(cfg, s, steps[0]), steps[1..], last);
    }
  }

  // ---------------------------------------------------------------- main results

  /** In every interleaving in which no two presented tokens have the same digest, a cache hit is what an
      authoritative load would have returned for the presented token, from a database version no older
      than the moment at which the generation this request read was reached; in particular every commit
      announced before that read is reflected. */
  lemma HitIsAFreshLoad(cfg: Config, start: Tracker, steps: seq<Step>, last: State, id: nat)
    requires cfg.comparesEpochs && Collisionless(cfg, Presented(steps))
    requires Returned(start) && Follows(cfg, Init(start), steps, last)
    requires last.tracker.bumps < GENERATIONS
    requires id in last.requests && last.requests[id].phase.Done? && last.requests[id].phase.outcome.Hit?
    ensures var r, hit := last.requests[id], last.requests[id].phase.outcome;
            && IsLoadOf(cfg, r.token, hit.verified)
            && hit.seen.bump < |last.tracker.history|
            && hit.seen.delivered <= last.tracker.history[hit.seen.bump] <= hit.verified.snapshot
            && r.floor <= hit.verified.snapshot
            && r.healthyAtStart
  {
    ReturnedIsConsistent(start);
    RunKeepsInv(cfg, Presented(steps), Init(start), steps, last);
    assert RequestSound(cfg, Presented(steps), last.tracker, last.requests[id]);
  }

  /** In every such interleaving, every successful answer, cached or loaded, is an authoritative load
      from a version that includes every commit announced, or locally invalidated for, before
      the request began. A request begun without a healthy listener is never answered from the
      cache. */
  lemma EveryAnswerIsFresh(cfg: Config, start: Tracker, steps: seq<Step>, last: State, id: nat)
    requires cfg.comparesEpochs && Collisionless(cfg, Presented(steps))
    requires Returned(start) && Follows(cfg, Init(start), steps, last)
    requires last.tracker.bumps < GENERATIONS
    requires id in last.requests && last.requests[id].phase.Done? && !last.requests[id].phase.outcome.Failed?
    ensures var r, verified := last.requests[id], last.requests[id].phase.outcome.verified;
            && IsLoadOf(cfg, r.token, verified)
            && r.floor <= verified.snapshot
            && (!r.healthyAtStart ==> r.phase.outcome.Loaded?)
  {
    ReturnedIsConsistent(start);
    RunKeepsInv(cfg, Presented(steps), Init(start), steps, last);
    assert RequestSound(cfg, Presented(steps), last.tracker, last.requests[id]);
  }
}
