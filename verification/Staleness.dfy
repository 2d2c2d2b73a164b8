/** How old what the ingress serves can be, in time, and runs that show what the guarantees rest on. */
module Staleness {
  import opened Common
  import opened Invalidation
  import opened TokenCache
  import opened Authentication
  import opened Availability

  /** Where facts come from: a database version and the clock at the load. */
  datatype Origin = Origin(version: nat, reading: Reading)

  function OriginOf(v: Verified): Origin {
    Origin(v.snapshot, v.reading)
  }

  /** The origin of the facts a request holds in some phase. */
  function Held(phase: Phase): Option<Origin> {
    match phase
    case Checking(_, entry, _) => Some(OriginOf(entry.verified))
    case HasLoaded(_, verified) => Some(OriginOf(verified))
    case SawHealthAgain(_, verified) => Some(OriginOf(verified))
    case Storing(_, verified) => Some(OriginOf(verified))
    case Done(Hit(verified, _, _)) => Some(OriginOf(verified))
    case Done(Loaded(verified)) => Some(OriginOf(verified))
    case _ => None
  }

  /** When the facts a request holds were looked up in the cache. */
  function LookedUpAt(phase: Phase): Option<nat> {
    match phase
    case Checking(_, _, ms) => Some(ms)
    case Done(Hit(_, _, ms)) => Some(ms)
    case _ => None
  }

  /** The version reached by commit k since the connection. */
  function VersionAfter(t: Tracker, k: nat): int {
    t.version - |t.commitTimes| + k + 1
  }

  /** The facts contain every commit made before they were loaded. */
  predicate OriginTimely(t: Tracker, now: nat, o: Origin) {
    && o.reading.ms <= now
    && forall k: nat :: k < |t.commitTimes| && t.commitTimes[k] < o.reading.ms ==> VersionAfter(t, k) <= o.version
  }

  predicate PhaseTimely(cfg: Config, delay: nat, now: nat, t: Tracker, phase: Phase) {
    && (Held(phase).Some? ==> OriginTimely(t, now, Held(phase).value))
    && (LookedUpAt(phase).Some? ==>
          Held(phase).Some? && LookedUpAt(phase).value <= Held(phase).value.reading.ms + delay + cfg.limits.revalidateMs)
  }

  predicate EntryTimely(delay: nat, now: nat, t: Tracker, e: Entry) {
    OriginTimely(t, now, OriginOf(e.verified)) && e.validatedAtMs <= e.verified.reading.ms + delay
  }

  ghost predicate TimeInv(cfg: Config, delay: nat, now: nat, s: State) {
    && UniqueKeys(s.cache)
    && (forall e :: e in s.cache ==> EntryTimely(delay, now, s.tracker, e))
    && (forall id :: id in s.requests ==> PhaseTimely(cfg, delay, now, s.tracker, s.requests[id].phase))
  }

  /** The clock of a commit or of a query. */
  function ClockOf(step: Step): Option<nat> {
    match step
    case Environment(Commit(atMs)) => Some(atMs)
    case QueryDatabase(_, at) => Some(at.ms)
    case _ => None
  }

  function ClockAfter(now: nat, step: Step): nat {
    if ClockOf(step).Some? then ClockOf(step).value else now
  }

  /** The clock does not run back, and what is stored was queried at most `delay` milliseconds earlier. */
  predicate StepPunctual(delay: nat, now: nat, s: State, step: Step)
    requires Enabled(s, step)
  {
    && now <= ClockAfter(now, step)
    && (step.StoreToken? ==> step.nowMs <= s.requests[step.id].phase.verified.reading.ms + delay)
  }

  /** The clock of commits and queries does not run back over a run, and no request takes more than `delay`
      milliseconds from its query to its store. */
  predicate Punctual(delay: nat, steps: seq<Step>) {
    && (forall i, j :: 0 <= i < j < |steps| && ClockOf(steps[i]).Some? && ClockOf(steps[j]).Some? ==>
          ClockOf(steps[i]).value <= ClockOf(steps[j]).value)
    && (forall i, j :: 0 <= i < j < |steps| && steps[i].QueryDatabase? && steps[j].StoreToken? && steps[i].id == steps[j].id ==>
          steps[j].nowMs <= steps[i].at.ms + delay)
  }

  /** The last clock value of some steps. */
  function LastClock(done: seq<Step>): nat {
    if done == [] then 0 else ClockAfter(LastClock(done[..|done| - 1]), done[|done| - 1])
  }

  lemma {:induction false} LastClockIsOneOf(done: seq<Step>)
    ensures LastClock(done) == 0 || exists i :: 0 <= i < |done| && ClockOf(done[i]) == Some(LastClock(done))
  {
    if done != [] {
      var n := |done| - 1;
      LastClockIsOneOf(done[..n]);
      if ClockOf(done[n]).None? && LastClock(done) != 0 {
        var i :| 0 <= i < n && ClockOf(done[..n][i]) == Some(LastClock(done));
        assert ClockOf(done[i]) == Some(LastClock(done));
      }
    }
  }

  /** The facts a request loaded itself. */
  function LoadedFacts(phase: Phase): Option<Verified> {
    match phase
    case HasLoaded(_, verified) => Some(verified)
    case SawHealthAgain(_, verified) => Some(verified)
    case Storing(_, verified) => Some(verified)
    case _ => None
  }

  /** Whatever a request loaded, it queried for in one of the steps done. */
  predicate Traced(done: seq<Step>, s: State) {
    forall id :: id in s.requests && LoadedFacts(s.requests[id].phase).Some? ==>
      QueryDatabase(id, LoadedFacts(s.requests[id].phase).value.reading) in done
  }

  lemma StepKeepsTrace(cfg: Config, done: seq<Step>, s: State, step: Step)
    requires Traced(done, s) && Enabled(s, step)
    ensures Traced(done + [step], Authentication.Apply(cfg, s, step))
  {
    var next := Authentication.Apply(cfg, s, step);
    forall id | id in next.requests && LoadedFacts(next.requests[id].phase).Some?
      ensures QueryDatabase(id, LoadedFacts(next.requests[id].phase).value.reading) in done + [step]
    {
      if step.Environment? || step.Begin? || id != step.id {
        assert (step.Begin? && id == step.id) || next.requests[id] == s.requests[id];
      } else {
        PhaseKeepsTrace(cfg, s, step);
      }
    }
  }

  lemma PhaseKeepsTrace(cfg: Config, s: State, step: Step)
    requires Enabled(s, step) && !step.Environment? && !step.Begin?
    ensures var facts := LoadedFacts(PhaseAfter(cfg, s, step));
            facts.Some? ==>
              || facts == LoadedFacts(s.requests[step.id].phase)
              || step == QueryDatabase(step.id, facts.value.reading)
  {
  }

  /** A step of a punctual run is punctual where it is made. */
  lemma StepIsPunctual(delay: nat, all: seq<Step>, n: nat, s: State)
    requires n < |all| && Punctual(delay, all) && Traced(all[..n], s) && Enabled(s, all[n])
    ensures StepPunctual(delay, LastClock(all[..n]), s, all[n])
  {
    var done, step := all[..n], all[n];
    LastClockIsOneOf(done);
    if LastClock(done) != 0 && ClockOf(step).Some? {
      var i :| 0 <= i < |done| && ClockOf(done[i]) == Some(LastClock(done));
      assert all[i] == done[i];
    }
    if step.StoreToken? {
      var query := QueryDatabase(step.id, s.requests[step.id].phase.verified.reading);
      var i :| 0 <= i < |done| && done[i] == query;
      assert all[i] == query;
    }
  }

  lemma CommitKeepsOrigin(t: Tracker, now: nat, atMs: nat, o: Origin)
    requires OriginTimely(t, now, o) && now <= atMs
    ensures OriginTimely(StepTracker(t, Commit(atMs)), atMs, o)
  {
    var u := StepTracker(t, Commit(atMs));
    forall k: nat | k < |u.commitTimes| && u.commitTimes[k] < o.reading.ms ensures VersionAfter(u, k) <= o.version {
      assert VersionAfter(u, k) == VersionAfter(t, k);
    }
  }

  lemma TrackerKeepsOrigin(t: Tracker, now: nat, step: TrackerStep, o: Origin)
    requires OriginTimely(t, now, o) && CanStep(t, step) && (step.Commit? ==> now <= step.atMs)
    ensures OriginTimely(StepTracker(t, step), if step.Commit? then step.atMs else now, o)
  {
    if step.Commit? {
      CommitKeepsOrigin(t, now, step.atMs, o);
    }
  }

  lemma EnvironmentKeepsTime(cfg: Config, delay: nat, now: nat, s: State, step: TrackerStep)
    requires TimeInv(cfg, delay, now, s) && CanStep(s.tracker, step) && (step.Commit? ==> now <= step.atMs)
    ensures TimeInv(cfg, delay, if step.Commit? then step.atMs else now, Authentication.Apply(cfg, s, Environment(step)))
  {
    forall e | e in s.cache ensures EntryTimely(delay, if step.Commit? then step.atMs else now, StepTracker(s.tracker, step), e) {
      TrackerKeepsOrigin(s.tracker, now, step, OriginOf(e.verified));
    }
    forall id | id in s.requests
      ensures PhaseTimely(cfg, delay, if step.Commit? then step.atMs else now, StepTracker(s.tracker, step), s.requests[id].phase)
    {
      if Held(s.requests[id].phase).Some? {
        TrackerKeepsOrigin(s.tracker, now, step, Held(s.requests[id].phase).value);
      }
    }
  }

  /** Facts just loaded contain every commit there is. */
  lemma LoadIsTimely(cfg: Config, t: Tracker, token: Token, at: Reading)
    requires Load(cfg, token, t.version, at).Some?
    ensures OriginTimely(t, at.ms, OriginOf(Load(cfg, token, t.version, at).value))
  {
  }

  lemma FoundIsTimely(cfg: Config, delay: nat, now: nat, s: State, key: Key, nowSeconds: nat, nowMs: nat, before: Option<Seen>)
    requires TimeInv(cfg, delay, now, s)
    ensures PhaseTimely(cfg, delay, now, s.tracker,
                        AfterLookingUp(before, Found(s.cache, key, nowSeconds, nowMs, cfg.limits), nowMs))
  {
    var found := Found(s.cache, key, nowSeconds, nowMs, cfg.limits);
    if found.Some? {
      assert found.value in s.cache;
    }
  }

  lemma CheckKeepsOrigin(cfg: Config, token: Token, phase: Phase, decodedAt: nat, nowSeconds: nat)
    requires phase.Checking?
    ensures var next := AfterCheck(cfg, token, phase, decodedAt, nowSeconds);
            (Held(next) == Held(phase) && LookedUpAt(next) == LookedUpAt(phase)) || (Held(next) == None && LookedUpAt(next) == None)
  {
  }

  lemma StepKeepsTime(cfg: Config, delay: nat, now: nat, s: State, step: Step)
    requires TimeInv(cfg, delay, now, s) && Enabled(s, step) && StepPunctual(delay, now, s, step)
    requires !step.Environment? && !step.Begin?
    ensures PhaseTimely(cfg, delay, ClockAfter(now, step), s.tracker, PhaseAfter(cfg, s, step))
  {
    var r := s.requests[step.id];
    assert PhaseTimely(cfg, delay, now, s.tracker, r.phase);
    match step
    case LookUp(_, nowSeconds, nowMs) =>
      FoundIsTimely(cfg, delay, now, s, cfg.digest(r.token), nowSeconds, nowMs, r.phase.before);
    case Check(_, decodedAt, nowSeconds) => CheckKeepsOrigin(cfg, r.token, r.phase, decodedAt, nowSeconds);
    case QueryDatabase(_, at) =>
      if Load(cfg, r.token, s.tracker.version, at).Some? {
        LoadIsTimely(cfg, s.tracker, r.token, at);
      }
    case _ =>
  }

  lemma CacheKeepsTime(cfg: Config, delay: nat, now: nat, s: State, step: Step, e: Entry)
    requires TimeInv(cfg, delay, now, s) && Enabled(s, step) && StepPunctual(delay, now, s, step)
    requires e in CacheAfter(cfg, s, step)
    ensures EntryTimely(delay, now, s.tracker, e)
  {
    var op := CacheOp(cfg, s, step);
    if op.Some? {
      EntrySurvivesOrIsStored(s.cache, op.value, cfg.limits, e);
      if step.StoreToken? {
        assert PhaseTimely(cfg, delay, now, s.tracker, s.requests[step.id].phase);
      }
    }
  }

  lemma ClockKeepsTime(cfg: Config, delay: nat, now: nat, later: nat, t: Tracker)
    requires now <= later
    ensures forall e :: EntryTimely(delay, now, t, e) ==> EntryTimely(delay, later, t, e)
    ensures forall phase :: PhaseTimely(cfg, delay, now, t, phase) ==> PhaseTimely(cfg, delay, later, t, phase)
  {
  }

  lemma RequestStepKeepsTime(cfg: Config, delay: nat, now: nat, s: State, step: Step)
    requires TimeInv(cfg, delay, now, s) && Enabled(s, step) && StepPunctual(delay, now, s, step)
    requires !step.Environment? && !step.Begin?
    ensures TimeInv(cfg, delay, ClockAfter(now, step), Authentication.Apply(cfg, s, step))
  {
    var next, later := Authentication.Apply(cfg, s, step), ClockAfter(now, step);
    CacheStep(cfg, s, step);
    StepKeepsTime(cfg, delay, now, s, step);
    ClockKeepsTime(cfg, delay, now, later, s.tracker);
    var op := CacheOp(cfg, s, step);
    if op.Some? {
      KeysStayUnique(s.cache, op.value, cfg.limits);
    }
    forall e | e in next.cache ensures EntryTimely(delay, later, s.tracker, e) {
      CacheKeepsTime(cfg, delay, now, s, step, e);
    }
    forall id | id in next.requests ensures PhaseTimely(cfg, delay, later, s.tracker, next.requests[id].phase) {
      assert id != step.id ==> next.requests[id] == s.requests[id];
    }
  }

  lemma AnyStepKeepsTime(cfg: Config, delay: nat, now: nat, s: State, step: Step)
    requires TimeInv(cfg, delay, now, s) && Enabled(s, step) && StepPunctual(delay, now, s, step)
    ensures TimeInv(cfg, delay, ClockAfter(now, step), Authentication.Apply(cfg, s, step))
  {
    match step
    case Environment(t) => EnvironmentKeepsTime(cfg, delay, now, s, t);
    case Begin(id, _) =>
      var next := Authentication.Apply(cfg, s, step);
      forall other | other in next.requests ensures PhaseTimely(cfg, delay, now, s.tracker, next.requests[other].phase) {
        assert other != id ==> next.requests[other] == s.requests[other];
      }
    case _ => RequestStepKeepsTime(cfg, delay, now, s, step);
  }

  lemma StepOfRunKeepsTime(cfg: Config, delay: nat, all: seq<Step>, n: nat, s: State)
    requires n < |all| && Enabled(s, all[n]) && Punctual(delay, all)
    requires TimeInv(cfg, delay, LastClock(all[..n]), s) && Traced(all[..n], s)
    ensures TimeInv(cfg, delay, LastClock(all[..n + 1]), Authentication.Apply(cfg, s, all[n]))
    ensures Traced(all[..n + 1], Authentication.Apply(cfg, s, all[n]))
  {
    StepIsPunctual(delay, all, n, s);
    AnyStepKeepsTime(cfg, delay, LastClock(all[..n]), s, all[n]);
    StepKeepsTrace(cfg, all[..n], s, all[n]);
    assert all[..n + 1] == all[..n] + [all[n]];
    assert all[..n + 1][..n] == all[..n];
  }

  lemma {:induction false} RunKeepsTime(cfg: Config, delay: nat, all: seq<Step>, n: nat, s: State, last: State)
    requires n <= |all| && Follows(cfg, s, all[n..], last) && Punctual(delay, all)
    requires TimeInv(cfg, delay, LastClock(all[..n]), s) && Traced(all[..n], s)
    ensures TimeInv(cfg, delay, LastClock(all), last)
    decreases |all| - n
  {
    if n == |all| {
      assert all[..n] == all;
    } else {
      NextStep(cfg, all, n, s, last);
      StepOfRunKeepsTime(cfg, delay, all, n, s);
      RunKeepsTime(cfg, delay, all, n + 1, Authentication.Apply(cfg, s, all[n]), last);
    }
  }

  /** Revocation takes effect in time, whatever becomes of the listener and its notifications: if no request
      takes more than `delay` milliseconds from its query to its store, every cache hit contains every
      commit made more than `revalidateMs + delay` milliseconds before the lookup. */
  lemma RevocationTakesEffectInTime(cfg: Config, start: Tracker, steps: seq<Step>, last: State, id: nat, delay: nat)
    requires Follows(cfg, Init(start), steps, last) && Punctual(delay, steps)
    requires id in last.requests && last.requests[id].phase.Done? && last.requests[id].phase.outcome.Hit?
    ensures var hit, t := last.requests[id].phase.outcome, last.tracker;
            && hit.lookedUpMs <= hit.verified.reading.ms + delay + cfg.limits.revalidateMs
            && forall k: nat :: k < |t.commitTimes| && t.commitTimes[k] + (cfg.limits.revalidateMs + delay) < hit.lookedUpMs ==>
                 VersionAfter(t, k) <= hit.verified.snapshot
  {
    HitIsTimely(cfg, start, steps, last, id, delay);
    BoundFromOrigin(last.tracker, LastClock(steps), last.requests[id].phase.outcome, cfg.limits.revalidateMs + delay);
  }

  lemma HitIsTimely(cfg: Config, start: Tracker, steps: seq<Step>, last: State, id: nat, delay: nat)
    requires Follows(cfg, Init(start), steps, last) && Punctual(delay, steps) && id in last.requests
    ensures PhaseTimely(cfg, delay, LastClock(steps), last.tracker, last.requests[id].phase)
  {
    assert steps[0..] == steps && steps[..0] == [];
    RunKeepsTime(cfg, delay, steps, 0, Init(start), last);
  }

  lemma BoundFromOrigin(t: Tracker, now: nat, hit: Outcome, bound: nat)
    requires hit.Hit? && OriginTimely(t, now, OriginOf(hit.verified)) && hit.lookedUpMs <= hit.verified.reading.ms + bound
    ensures forall k: nat :: k < |t.commitTimes| && t.commitTimes[k] + bound < hit.lookedUpMs ==> VersionAfter(t, k) <= hit.verified.snapshot
  {
  }

  // ---------------------------------------------------------------- runs that show what is needed

  const ZERO := Reading(0, 0, 0)
  const FRESH: Tracker := Raise(Registered(0))

  /** The token is good at time zero and version zero. */
  predicate GoodAtZero(cfg: Config, token: Token) {
    && cfg.limits.capacity > 0
    && Load(cfg, token, 0, ZERO).Some? && Load(cfg, token, 0, ZERO).value.expiresAtSeconds > 0
  }

  function OldLoadSteps(token: Token): seq<Step> {
    [Begin(0, token), ReadHealth(0), ReadGeneration(0), LookUp(0, 0, 0), QueryDatabase(0, ZERO)]
  }

  function OldStoreSteps(nowMs: nat): seq<Step> {
    [ReadHealth(0), ReadGeneration(0), StoreToken(0, nowMs)]
  }

  function ReuseSteps(token: Token, nowMs: nat): seq<Step> {
    [Begin(1, token), ReadHealth(1), ReadGeneration(1)] + [LookUp(1, 0, nowMs), Check(1, 0, 0)]
  }

  const SILENT: seq<Step> := [Environment(Commit(0))]
  const ANNOUNCED: seq<Step> := [Environment(Commit(0)), Environment(Deliver)]

  /** The tracker after one commit, without and with its notification. */
  const COMMITTED := Tracker(1, 0, 0, true, Listening, [0], [0])
  const NOTIFIED := Tracker(1, 1, 1, true, Listening, [0, 1], [0])

  /** What a good token loads at time zero. */
  function Facts(cfg: Config, token: Token): Verified
    requires GoodAtZero(cfg, token)
  {
    Load(cfg, token, 0, ZERO).value
  }

  /** The state after the load. */
  function LoadedState(cfg: Config, token: Token): State
    requires GoodAtZero(cfg, token)
  {
    State(FRESH, [], map[0 := Request(token, 0, true, HasLoaded(Some(Seen(Generation(0), 0, 0)), Facts(cfg, token)))])
  }

  /** The facts are the only entry of the cache, under the current generation. */
  predicate Stored(cfg: Config, token: Token, s: State, storedMs: nat)
    requires GoodAtZero(cfg, token)
  {
    && s.cache == [Entry(cfg.digest(token), Facts(cfg, token), See(s.tracker).generation, storedMs)]
    && Healthy(s.tracker) && s.requests.Keys == {0}
  }

  /** The second request, about to look into the cache. */
  function Waiting(s: State, token: Token): State {
    s.(requests := s.requests[1 := Request(token, Floor(s.tracker), true, LookingUp(Some(See(s.tracker))))])
  }

  /** The second request was answered from the cache with the facts of version zero. */
  predicate Served(s: State, last: State, nowMs: nat) {
    && last.tracker == s.tracker && 1 in last.requests
    && var r := last.requests[1];
       r.floor == Floor(s.tracker) && r.phase.Done? && r.phase.outcome.Hit?
       && r.phase.outcome.verified.snapshot == 0 && r.phase.outcome.lookedUpMs == nowMs
  }

  /** Without the comparison of the two epochs the guarantee fails: one request loads at version
      zero, a commit is made and announced, the request labels its old facts with the new
      generation, and a second request is served them. */
  lemma ComparisonIsNeeded(cfg: Config, token: Token)
    requires !cfg.comparesEpochs && GoodAtZero(cfg, token)
    ensures exists steps, last :: Follows(cfg, Init(FRESH), steps, last) && ServesStale(last)
  {
    var last := StaleRun(cfg, token);
  }

  /** A hit that misses a commit announced before its request began. */
  predicate ServesStale(s: State) {
    && 1 in s.requests && s.requests[1].phase.Done? && s.requests[1].phase.outcome.Hit?
    && s.requests[1].phase.outcome.verified.snapshot < s.requests[1].floor
  }

  lemma StaleRun(cfg: Config, token: Token) returns (last: State)
    requires !cfg.comparesEpochs && GoodAtZero(cfg, token)
    ensures Follows(cfg, Init(FRESH), OldLoadSteps(token) + ANNOUNCED + OldStoreSteps(0) + ReuseSteps(token, 0), last) && ServesStale(last)
  {
    CommitIsAnnounced(cfg, token);
    var stored := LoadAndStore(cfg, token, ANNOUNCED, NOTIFIED, 0);
    last := StaleHit(cfg, token, stored, 0, 0);
    FollowsBoth(cfg, Init(FRESH), OldLoadSteps(token) + ANNOUNCED + OldStoreSteps(0), stored, ReuseSteps(token, 0), last);
  }

  /** A hit, so long after the only commit, that misses it. */
  predicate ServesLate(s: State, age: nat) {
    && 1 in s.requests && s.requests[1].phase.Done? && s.requests[1].phase.outcome.Hit?
    && s.tracker.commitTimes == [0] && s.requests[1].phase.outcome.lookedUpMs == age
    && s.requests[1].phase.outcome.verified.snapshot < VersionAfter(s.tracker, 0)
  }

  /** The bound on staleness is attained: a commit made right after the load is still missing from a hit
      `revalidateMs + delay` milliseconds later, when its notification has not come. */
  lemma BoundIsAttained(cfg: Config, token: Token, delay: nat)
    requires GoodAtZero(cfg, token)
    ensures exists steps, last ::
              Follows(cfg, Init(FRESH), steps, last) && Punctual(delay, steps) && ServesLate(last, cfg.limits.revalidateMs + delay)
  {
    var last := LateRun(cfg, token, delay);
    LateRunIsPunctual(token, delay, cfg.limits.revalidateMs + delay);
  }

  function LateSteps(token: Token, delay: nat, nowMs: nat): seq<Step> {
    OldLoadSteps(token) + SILENT + OldStoreSteps(delay) + ReuseSteps(token, nowMs)
  }

  lemma LateRun(cfg: Config, token: Token, delay: nat) returns (last: State)
    requires GoodAtZero(cfg, token)
    ensures Follows(cfg, Init(FRESH), LateSteps(token, delay, cfg.limits.revalidateMs + delay), last)
    ensures ServesLate(last, cfg.limits.revalidateMs + delay)
  {
    var nowMs := cfg.limits.revalidateMs + delay;
    CommitIsSilent(cfg, token);
    var stored := LoadAndStore(cfg, token, SILENT, COMMITTED, delay);
    last := StaleHit(cfg, token, stored, delay, nowMs);
    FollowsBoth(cfg, Init(FRESH), OldLoadSteps(token) + SILENT + OldStoreSteps(delay), stored, ReuseSteps(token, nowMs), last);
  }

  lemma LateRunIsPunctual(token: Token, delay: nat, nowMs: nat)
    ensures Punctual(delay, LateSteps(token, delay, nowMs))
  {
    var steps := LateSteps(token, delay, nowMs);
    assert steps == [Begin(0, token), ReadHealth(0), ReadGeneration(0), LookUp(0, 0, 0), QueryDatabase(0, ZERO),
                     Environment(Commit(0)), ReadHealth(0), ReadGeneration(0), StoreToken(0, delay),
                     Begin(1, token), ReadHealth(1), ReadGeneration(1), LookUp(1, 0, nowMs), Check(1, 0, 0)];
  }

  lemma OldLoad(cfg: Config, token: Token)
    requires GoodAtZero(cfg, token)
    ensures Follows(cfg, Init(FRESH), OldLoadSteps(token), LoadedState(cfg, token))
  {
    var steps, s := OldLoadSteps(token), LoadedState(cfg, token);
    var s1 := Authentication.Apply(cfg, Init(FRESH), steps[0]);
    var s2 := Authentication.Apply(cfg, s1, steps[1]);
    var s3 := Authentication.Apply(cfg, s2, steps[2]);
    var s4 := Authentication.Apply(cfg, s3, steps[3]);
    assert Authentication.Apply(cfg, s4, steps[4]) == s;
    assert Follows(cfg, s4, steps[4..], s);
    assert Follows(cfg, s3, steps[3..], s);
    assert Follows(cfg, s2, steps[2..], s);
    assert Follows(cfg, s1, steps[1..], s);
  }

  /** The state after the load, with the tracker moved on. */
  function Moved(cfg: Config, token: Token, t: Tracker): State
    requires GoodAtZero(cfg, token)
  {
    LoadedState(cfg, token).(tracker := t)
  }

  lemma CommitIsSilent(cfg: Config, token: Token)
    requires GoodAtZero(cfg, token)
    ensures Follows(cfg, LoadedState(cfg, token), SILENT, Moved(cfg, token, COMMITTED))
  {
    assert StepTracker(FRESH, Commit(0)) == COMMITTED;
    assert Follows(cfg, Moved(cfg, token, COMMITTED), SILENT[1..], Moved(cfg, token, COMMITTED));
  }

  lemma CommitIsAnnounced(cfg: Config, token: Token)
    requires GoodAtZero(cfg, token)
    ensures Follows(cfg, LoadedState(cfg, token), ANNOUNCED, Moved(cfg, token, NOTIFIED))
  {
    var last := Moved(cfg, token, NOTIFIED);
    assert StepTracker(FRESH, Commit(0)) == COMMITTED && StepTracker(COMMITTED, Deliver) == NOTIFIED;
    assert Follows(cfg, last, ANNOUNCED[1..][1..], last);
    assert Follows(cfg, Moved(cfg, token, COMMITTED), ANNOUNCED[1..], last);
  }

  /** The loading request stores its old facts under the generation it reads now. */
  lemma OldStore(cfg: Config, token: Token, t: Tracker, nowMs: nat) returns (last: State)
    requires GoodAtZero(cfg, token) && Healthy(t)
    requires See(t).generation == Generation(0) || !cfg.comparesEpochs
    ensures Follows(cfg, Moved(cfg, token, t), OldStoreSteps(nowMs), last) && Stored(cfg, token, last, nowMs)
    ensures last.tracker == t
  {
    var steps, s := OldStoreSteps(nowMs), Moved(cfg, token, t);
    var s1 := Authentication.Apply(cfg, s, steps[0]);
    var s2 := Authentication.Apply(cfg, s1, steps[1]);
    last := Authentication.Apply(cfg, s2, steps[2]);
    assert Follows(cfg, s2, steps[2..], last);
    assert Follows(cfg, s1, steps[1..], last);
  }

  /** Load, something in between, store. */
  lemma LoadAndStore(cfg: Config, token: Token, between: seq<Step>, t: Tracker, nowMs: nat) returns (stored: State)
    requires GoodAtZero(cfg, token) && Healthy(t) && Follows(cfg, LoadedState(cfg, token), between, Moved(cfg, token, t))
    requires See(t).generation == Generation(0) || !cfg.comparesEpochs
    ensures Follows(cfg, Init(FRESH), OldLoadSteps(token) + between + OldStoreSteps(nowMs), stored)
    ensures Stored(cfg, token, stored, nowMs) && stored.tracker == t
  {
    OldLoad(cfg, token);
    stored := OldStore(cfg, token, t, nowMs);
    FollowsThree(cfg, Init(FRESH), OldLoadSteps(token), LoadedState(cfg, token), between, Moved(cfg, token, t), OldStoreSteps(nowMs), stored);
  }

  lemma SecondRequestStarts(cfg: Config, token: Token, s: State)
    requires Healthy(s.tracker) && 1 !in s.requests
    ensures Follows(cfg, s, [Begin(1, token), ReadHealth(1), ReadGeneration(1)], Waiting(s, token))
  {
    var steps, last := [Begin(1, token), ReadHealth(1), ReadGeneration(1)], Waiting(s, token);
    var s1 := Authentication.Apply(cfg, s, steps[0]);
    var s2 := Authentication.Apply(cfg, s1, steps[1]);
    assert Authentication.Apply(cfg, s2, steps[2]) == last;
    assert Follows(cfg, s2, steps[2..], last);
    assert Follows(cfg, s1, steps[1..], last);
  }

  lemma SecondRequestHits(cfg: Config, token: Token, s: State, storedMs: nat, nowMs: nat) returns (last: State)
    requires GoodAtZero(cfg, token) && Stored(cfg, token, s, storedMs) && nowMs <= storedMs + cfg.limits.revalidateMs
    ensures Follows(cfg, Waiting(s, token), [LookUp(1, 0, nowMs), Check(1, 0, 0)], last) && Served(s, last, nowMs)
  {
    var steps := [LookUp(1, 0, nowMs), Check(1, 0, 0)];
    var s1 := Authentication.Apply(cfg, Waiting(s, token), steps[0]);
    last := Authentication.Apply(cfg, s1, steps[1]);
    assert Follows(cfg, s1, steps[1..], last);
  }

  /** The entry in the cache is served to another request under its own label. */
  lemma StaleHit(cfg: Config, token: Token, s: State, storedMs: nat, nowMs: nat) returns (last: State)
    requires GoodAtZero(cfg, token) && Stored(cfg, token, s, storedMs) && nowMs <= storedMs + cfg.limits.revalidateMs
    ensures Follows(cfg, s, ReuseSteps(token, nowMs), last) && Served(s, last, nowMs)
  {
    SecondRequestStarts(cfg, token, s);
    last := SecondRequestHits(cfg, token, s, storedMs, nowMs);
    FollowsBoth(cfg, s, [Begin(1, token), ReadHealth(1), ReadGeneration(1)], Waiting(s, token),
                [LookUp(1, 0, nowMs), Check(1, 0, 0)], last);
  }
}
