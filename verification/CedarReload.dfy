/** The active Cedar policy of the native ingress: double-checked locking around a
    reader-writer lock, with a bounded retry when the policy changes while it loads.
    Calls interleave freely with commits, tracker moves and each other. */
module CedarReload {
  import opened Common
  import opened Invalidation
  import opened Runs

  const ATTEMPTS: nat := 3

  /** A provider is the policy version it was built from. `bump` is a history variable: how
      often the generation had moved when `epoch` was read. */
  datatype Cached = Cached(provider: nat, epoch: nat, bump: nat)

  /** One load window: the epochs read before and after the load, and what was loaded. */
  datatype Window = Window(before: Seen, provider: nat, after: Seen)

  /** Why a call failed, a history variable: an epoch could not be read, or the policy not loaded. */
  datatype Cause = FlagDown | LoadBroken

  datatype Outcome =
    | Returned(provider: nat, seen: Seen)
    | Unstable(windows: seq<Window>)
    | Failed(cause: Cause)

  /** Why the epoch is being read. */
  datatype Purpose =
    | First
    | Recheck
    | Before(windows: seq<Window>)
    | After(windows: seq<Window>, before: Seen, provider: nat)

  datatype Phase =
    | Reading(purpose: Purpose, sawHealth: bool)
    | WantsRead(seen: Seen)
    | HoldsRead(seen: Seen)
    | WantsWrite
    | Loading(windows: seq<Window>, before: Seen)
    | Publishing(provider: nat, seen: Seen)
    | Done(outcome: Outcome)

  /** `startBump` is a history variable of the call's first step. */
  datatype Call = Call(startBump: nat, phase: Phase)

  datatype State = State(
    tracker: Tracker,
    cached: Cached,
    readers: set<nat>,
    writer: Option<nat>,
    calls: map<nat, Call>)

  datatype Step =
    | Environment(step: TrackerStep)
    | Begin(id: nat)
    | ReadHealth(id: nat)
    | ReadGeneration(id: nat)
    | AcquireRead(id: nat)
    | CompareAndRelease(id: nat)
    | AcquireWrite(id: nat)
    | LoadPolicy(id: nat, succeeds: bool)
    | Publish(id: nat)

  /** The service starts with a connected tracker and the result of one consistent load. */
  predicate Started(s: State) {
    && Consistent(s.tracker) && CachedSound(s.tracker, s.cached)
    && s.readers == {} && s.writer == None && s.calls == map[]
  }

  predicate Enabled(s: State, step: Step) {
    match step
    case Environment(t) => CanStep(s.tracker, t)
    case Begin(id) => id !in s.calls
    case ReadHealth(id) => id in s.calls && s.calls[id].phase.Reading? && !s.calls[id].phase.sawHealth
    case ReadGeneration(id) => id in s.calls && s.calls[id].phase.Reading? && s.calls[id].phase.sawHealth
    case AcquireRead(id) => id in s.calls && s.calls[id].phase.WantsRead? && s.writer.None?
    case CompareAndRelease(id) => id in s.calls && s.calls[id].phase.HoldsRead?
    case AcquireWrite(id) => id in s.calls && s.calls[id].phase.WantsWrite? && s.writer.None? && s.readers == {}
    case LoadPolicy(id, _) => id in s.calls && s.calls[id].phase.Loading?
    case Publish(id) => id in s.calls && s.calls[id].phase.Publishing?
  }

  function Goto(s: State, id: nat, phase: Phase): State
    requires id in s.calls
  {
    s.(calls := s.calls[id := s.calls[id].(phase := phase)])
  }

  /** Leaves the call; a write guard it holds is dropped. */
  function Finish(s: State, id: nat, outcome: Outcome): State
    requires id in s.calls
  {
    Goto(s.(writer := if s.writer == Some(id) then None else s.writer), id, Done(outcome))
  }

  function AfterGeneration(s: State, id: nat, purpose: Purpose, seen: Seen): State
    requires id in s.calls
  {
    match purpose
    case First => Goto(s, id, WantsRead(seen))
    case Recheck =>
      if s.cached.epoch == seen.generation then Finish(s, id, Returned(s.cached.provider, seen))
      else Goto(s, id, Reading(Before([]), false))
    case Before(windows) => Goto(s, id, Loading(windows, seen))
    case After(windows, before, provider) =>
      if before.generation == seen.generation then Goto(s, id, Publishing(provider, seen))
      else
        var tried := windows + [Window(before, provider, seen)];
        if |tried| < ATTEMPTS then Goto(s, id, Reading(Before(tried), false))
        else Finish(s, id, Unstable(tried))
  }

  function Apply(s: State, step: Step): State
    requires Enabled(s, step)
  {
    match step
    case Environment(t) => s.(tracker := StepTracker(s.tracker, t))
    case Begin(id) => s.(calls := s.calls[id := Call(s.tracker.bumps, Reading(First, false))])
    case ReadHealth(id) =>
      if Healthy(s.tracker) then Goto(s, id, s.calls[id].phase.(sawHealth := true)) else Finish(s, id, Failed(FlagDown))
    case ReadGeneration(id) => AfterGeneration(s, id, s.calls[id].phase.purpose, See(s.tracker))
    case AcquireRead(id) => Goto(s.(readers := s.readers + {id}), id, HoldsRead(s.calls[id].phase.seen))
    case CompareAndRelease(id) =>
      var seen := s.calls[id].phase.seen;
      var released := s.(readers := s.readers - {id});
      if s.cached.epoch == seen.generation then Finish(released, id, Returned(s.cached.provider, seen))
      else Goto(released, id, WantsWrite)
    case AcquireWrite(id) => Goto(s.(writer := Some(id)), id, Reading(Recheck, false))
    case LoadPolicy(id, succeeds) =>
      var phase := s.calls[id].phase;
      if succeeds then Goto(s, id, Reading(After(phase.windows, phase.before, s.tracker.version), false))
      else Finish(s, id, Failed(LoadBroken))
    case Publish(id) =>
      var phase := s.calls[id].phase;
      Finish(s.(cached := Cached(phase.provider, phase.seen.generation, phase.seen.bump)), id,
             Returned(phase.provider, phase.seen))
  }

  predicate Follows(s: State, steps: seq<Step>, last: State)
    decreases |steps|
  {
    if steps == [] then s == last
    else Enabled(s, steps[0]) && Follows(Apply(s, steps[0]), steps[1..], last)
  }

  // ---------------------------------------------------------------- the invariant

  predicate Writing(phase: Phase) {
    || (phase.Reading? && !phase.purpose.First?)
    || phase.Loading?
    || phase.Publishing?
  }

  predicate CachedSound(t: Tracker, c: Cached)
    requires Consistent(t)
  {
    c.bump <= t.bumps && c.epoch == Generation(c.bump) && t.history[c.bump] <= c.provider
  }

  /** An epoch read during the call. */
  predicate During(t: Tracker, call: Call, seen: Seen)
    requires Consistent(t)
  {
    SeenBefore(t, seen) && call.startBump <= seen.bump
  }

  /** The generation moved inside every window, and the windows follow one another. */
  predicate AllMoved(windows: seq<Window>, start: nat, now: nat) {
    && (forall i :: 0 <= i < |windows| ==>
          && start <= windows[i].before.bump < windows[i].after.bump <= now
          && windows[i].before.generation != windows[i].after.generation)
    && (forall i :: 0 <= i < |windows| - 1 ==> windows[i].after.bump <= windows[i + 1].before.bump)
  }

  predicate WindowsUpTo(windows: seq<Window>, start: nat, before: Seen) {
    AllMoved(windows, start, before.bump)
  }

  predicate CallSound(t: Tracker, cached: Cached, call: Call)
    requires Consistent(t)
  {
    && call.startBump <= t.bumps
    && match call.phase
       case Reading(purpose, _) =>
         (match purpose
          case First => true
          case Recheck => true
          case Before(windows) => |windows| < ATTEMPTS && AllMoved(windows, call.startBump, t.bumps)
          case After(windows, before, provider) =>
            && |windows| < ATTEMPTS && During(t, call, before) && WindowsUpTo(windows, call.startBump, before)
            && t.history[before.bump] <= provider)
       case WantsRead(seen) => During(t, call, seen)
       case HoldsRead(seen) => During(t, call, seen)
       case WantsWrite => true
       case Loading(windows, before) =>
         |windows| < ATTEMPTS && During(t, call, before) && WindowsUpTo(windows, call.startBump, before)
       case Publishing(provider, seen) =>
         && During(t, call, seen) && t.history[seen.bump] <= provider
         && cached.bump <= seen.bump
       case Done(outcome) =>
         match outcome
         case Returned(provider, seen) => During(t, call, seen) && t.history[seen.bump] <= provider
         case Unstable(windows) => |windows| == ATTEMPTS && AllMoved(windows, call.startBump, t.bumps)
         case Failed(_) => true
  }

  /** A call holds the write lock exactly in its writing phases, and a read lock exactly while it compares. */
  predicate LocksAt(s: State, id: nat) {
    && (id in s.calls && Writing(s.calls[id].phase) <==> s.writer == Some(id))
    && (id in s.calls && s.calls[id].phase.HoldsRead? <==> id in s.readers)
  }

  ghost predicate LocksSound(s: State) {
    (s.writer.Some? ==> s.readers == {}) && forall id :: LocksAt(s, id)
  }

  ghost predicate Inv(s: State) {
    && Consistent(s.tracker)
    && LocksSound(s)
    && (s.tracker.bumps < GENERATIONS ==>
          && CachedSound(s.tracker, s.cached)
          && forall id :: id in s.calls ==> CallSound(s.tracker, s.cached, s.calls[id]))
  }

  lemma LaterCall(t: Tracker, u: Tracker, cached: Cached, call: Call)
    requires Consistent(t) && Consistent(u) && Later(t, u)
    requires CallSound(t, cached, call)
    ensures CallSound(u, cached, call)
  {
    assert forall i :: 0 <= i < |t.history| ==> t.history[i] == u.history[i];
  }

  lemma EnvironmentKeepsInv(s: State, t: TrackerStep)
    requires Inv(s) && Enabled(s, Environment(t))
    ensures Inv(Apply(s, Environment(t)))
  {
    var next := StepTracker(s.tracker, t);
    StepIsLater(s.tracker, t);
    assert forall i :: 0 <= i < |s.tracker.history| ==> s.tracker.history[i] == next.history[i];
    forall id ensures LocksAt(Apply(s, Environment(t)), id) {
      assert LocksAt(s, id);
    }
    if next.bumps < GENERATIONS {
      forall id | id in s.calls ensures CallSound(next, s.cached, s.calls[id]) {
        LaterCall(s.tracker, next, s.cached, s.calls[id]);
      }
    }
  }

  lemma AnotherWindow(windows: seq<Window>, start: nat, before: Seen, provider: nat, after: Seen)
    requires start <= before.bump < after.bump && before.generation != after.generation
    requires WindowsUpTo(windows, start, before)
    ensures AllMoved(windows + [Window(before, provider, after)], start, after.bump)
  {
    var tried := windows + [Window(before, provider, after)];
    forall i | 0 <= i < |tried| - 1 ensures tried[i].after.bump <= tried[i + 1].before.bump {
      assert tried[i] == windows[i];
    }
  }

  /** Reading the generation, for whatever purpose. */
  lemma GenerationKeepsCall(s: State, id: nat)
    requires Inv(s) && s.tracker.bumps < GENERATIONS && Enabled(s, ReadGeneration(id))
    ensures CallSound(s.tracker, Apply(s, ReadGeneration(id)).cached, Apply(s, ReadGeneration(id)).calls[id])
  {
    var t := s.tracker;
    GenerationDeterminesBump(t.bumps);
    GenerationDeterminesBump(s.cached.bump);
    var purpose := s.calls[id].phase.purpose;
    if purpose.After? {
      GenerationDeterminesBump(purpose.before.bump);
      if purpose.before.generation != See(t).generation {
        AnotherWindow(purpose.windows, s.calls[id].startBump, purpose.before, purpose.provider, See(t));
      }
    }
  }

  lemma StepKeepsCall(s: State, step: Step, id: nat)
    requires Inv(s) && s.tracker.bumps < GENERATIONS
    requires !step.Environment? && Enabled(s, step) && id == step.id
    ensures CallSound(s.tracker, Apply(s, step).cached, Apply(s, step).calls[id])
  {
    match step
    case ReadGeneration(_) =>
      GenerationKeepsCall(s, id);
    case CompareAndRelease(_) =>
      GenerationDeterminesBump(s.cached.bump);
      GenerationDeterminesBump(s.calls[id].phase.seen.bump);
    case _ =>
  }

  /** Publishing is safe for the other calls because no other call is in a writing phase. */
  lemma StepKeepsOthers(s: State, step: Step, id: nat)
    requires Inv(s) && s.tracker.bumps < GENERATIONS
    requires !step.Environment? && Enabled(s, step) && id != step.id && id in s.calls
    ensures id in Apply(s, step).calls
    ensures CallSound(s.tracker, Apply(s, step).cached, Apply(s, step).calls[id])
  {
    assert Apply(s, step).calls[id] == s.calls[id];
    if step.Publish? {
      assert LocksAt(s, step.id) && LocksAt(s, id);
    }
  }

  lemma StepKeepsOwnLocks(s: State, step: Step)
    requires LocksSound(s) && Enabled(s, step) && !step.Environment?
    ensures LocksAt(Apply(s, step), step.id) && (Apply(s, step).writer.Some? ==> Apply(s, step).readers == {})
  {
    assert LocksAt(s, step.id);
  }

  lemma StepKeepsOtherLocks(s: State, step: Step, id: nat)
    requires LocksSound(s) && Enabled(s, step) && !step.Environment? && id != step.id
    ensures LocksAt(Apply(s, step), id)
  {
    assert LocksAt(s, id) && LocksAt(s, step.id);
    assert id in Apply(s, step).calls <==> id in s.calls;
    assert id in s.calls ==> Apply(s, step).calls[id] == s.calls[id];
  }

  lemma StepKeepsLocks(s: State, step: Step)
    requires LocksSound(s) && Enabled(s, step) && !step.Environment?
    ensures LocksSound(Apply(s, step))
  {
    StepKeepsOwnLocks(s, step);
    forall id ensures LocksAt(Apply(s, step), id) {
      if id != step.id {
        StepKeepsOtherLocks(s, step, id);
      }
    }
  }

  lemma StepKeepsCalls(s: State, step: Step)
    requires Inv(s) && s.tracker.bumps < GENERATIONS && Enabled(s, step) && !step.Environment?
    ensures var next := Apply(s, step);
            next.tracker == s.tracker && forall id :: id in next.calls ==> CallSound(s.tracker, next.cached, next.calls[id])
  {
    var next := Apply(s, step);
    forall id | id in next.calls ensures CallSound(s.tracker, next.cached, next.calls[id]) {
      if id == step.id {
        StepKeepsCall(s, step, id);
      } else {
        StepKeepsOthers(s, step, id);
      }
    }
  }

  lemma StepKeepsInv(s: State, step: Step)
    requires Inv(s) && Enabled(s, step)
    ensures Inv(Apply(s, step))
  {
    if step.Environment? {
      EnvironmentKeepsInv(s, step.step);
    } else {
      StepKeepsLocks(s, step);
      assert Apply(s, step).tracker == s.tracker;
      if s.tracker.bumps < GENERATIONS {
        StepKeepsCalls(s, step);
        StepKeepsCached(s, step);
      }
    }
  }

  /** Only publishing changes what is cached, and what it publishes is soundly labelled. */
  lemma StepKeepsCached(s: State, step: Step)
    requires Inv(s) && s.tracker.bumps < GENERATIONS && Enabled(s, step) && !step.Environment?
    ensures CachedSound(s.tracker, Apply(s, step).cached)
  {
    if step.Publish? {
      assert CallSound(s.tracker, s.cached, s.calls[step.id]);
    }
  }

  lemma {:induction false} RunKeepsInv(s: State, steps: seq<Step>, last: State)
    requires Inv(s) && Follows(s, steps, last)
    ensures Inv(last)
    decreases |steps|
  {
    if steps != [] {
      StepKeepsInv(s, steps[0]);
      RunKeepsInv(Apply(s, steps[0]), steps[1..], last);
    }
  }

  // ---------------------------------------------------------------- main results

  /** In every interleaving, a provider returned by `current_cedar` was built from a policy
      version no older than an epoch this very call read, hence no older than the last move
      of the generation before the call began. */
  lemma ReturnedProviderIsFresh(s: State, steps: seq<Step>, last: State, id: nat)
    requires Started(s) && Follows(s, steps, last)
    requires last.tracker.bumps < GENERATIONS
    requires id in last.calls && last.calls[id].phase.Done? && last.calls[id].phase.outcome.Returned?
    ensures var call, out := last.calls[id], last.calls[id].phase.outcome;
            && call.startBump <= out.seen.bump < |last.tracker.history|
            && out.seen.delivered <= last.tracker.history[out.seen.bump] <= out.provider
            && last.tracker.history[call.startBump] <= out.provider
  {
    RunKeepsInv(s, steps, last);
    assert CallSound(last.tracker, last.cached, last.calls[id]);
  }

  lemma {:induction false} CachedBumpGrows(s: State, steps: seq<Step>, last: State)
    requires Inv(s) && Follows(s, steps, last)
    requires last.tracker.bumps < GENERATIONS
    ensures s.cached.bump <= last.cached.bump
    ensures s.tracker.bumps <= last.tracker.bumps
    decreases |steps|
  {
    if steps != [] {
      var next := Apply(s, steps[0]);
      StepKeepsInv(s, steps[0]);
      CachedBumpGrows(next, steps[1..], last);
      if steps[0].Publish? {
        assert CallSound(s.tracker, s.cached, s.calls[steps[0].id]);
      }
    }
  }

  /** In every interleaving the cached epoch never moves backwards, from any point of a run to any later
      one: it is always a generation that was reached, and never an earlier one than before. */
  lemma CachedEpochNeverGoesBack(s: State, first: seq<Step>, middle: State, second: seq<Step>, last: State)
    requires Started(s) && Follows(s, first, middle) && Follows(middle, second, last)
    requires last.tracker.bumps < GENERATIONS
    ensures middle.cached.epoch == Generation(middle.cached.bump) && last.cached.epoch == Generation(last.cached.bump)
    ensures BumpOf(middle.cached.epoch) <= BumpOf(last.cached.epoch) <= last.tracker.bumps
    ensures last.tracker.bumps + 1 < GENERATIONS ==> middle.cached.epoch <= last.cached.epoch
  {
    RunKeepsInv(s, first, middle);
    RunKeepsInv(middle, second, last);
    CachedBumpGrows(middle, second, last);
    EpochsGrow(middle.cached.bump, last.cached.bump);
  }

  lemma EpochsGrow(a: nat, b: nat)
    requires a <= b < GENERATIONS
    ensures BumpOf(Generation(a)) == a && BumpOf(Generation(b)) == b
    ensures b + 1 < GENERATIONS ==> Generation(a) <= Generation(b)
  {
    GenerationDeterminesBump(a);
    GenerationDeterminesBump(b);
  }

  /** `UnstableRevision` is reported only when the epoch differed in all three load windows, so
      that the generation moved at least three times during that call. */
  lemma UnstableMeansThreeMoves(s: State, steps: seq<Step>, last: State, id: nat)
    requires Started(s) && Follows(s, steps, last)
    requires last.tracker.bumps < GENERATIONS
    requires id in last.calls && last.calls[id].phase.Done? && last.calls[id].phase.outcome.Unstable?
    ensures var windows := last.calls[id].phase.outcome.windows;
            && |windows| == 3
            && (forall i :: 0 <= i < 3 ==> windows[i].before.generation != windows[i].after.generation)
            && last.calls[id].startBump + 3 <= last.tracker.bumps
  {
    RunKeepsInv(s, steps, last);
    assert CallSound(last.tracker, last.cached, last.calls[id]);
    var windows := last.calls[id].phase.outcome.windows;
    assert windows[0].after.bump <= windows[1].before.bump;
    assert windows[1].after.bump <= windows[2].before.bump;
  }

  // ---------------------------------------------------------------- when a call fails

  /** The reason of a failed call, and the step of the call that found it. */
  predicate FailureJustified(done: seq<Step>, t: Tracker, id: nat, cause: Cause) {
    match cause
    case FlagDown => !Healthy(t) && ReadHealth(id) in done
    case LoadBroken => LoadPolicy(id, false) in done
  }

  predicate CallJustified(done: seq<Step>, t: Tracker, id: nat, call: Call) {
    call.phase.Done? && call.phase.outcome.Failed? ==> FailureJustified(done, t, id, call.phase.outcome.cause)
  }

  predicate FailInv(done: seq<Step>, s: State) {
    Consistent(s.tracker) && forall id :: id in s.calls ==> CallJustified(done, s.tracker, id, s.calls[id])
  }

  lemma OwnFailureIsJustified(done: seq<Step>, s: State, step: Step)
    requires FailInv(done, s) && Enabled(s, step) && !step.Environment?
    ensures CallJustified(done + [step], s.tracker, step.id, Apply(s, step).calls[step.id])
  {
    assert step in done + [step];
  }

  lemma StepKeepsFailInv(done: seq<Step>, s: State, step: Step)
    requires FailInv(done, s) && Enabled(s, step)
    ensures FailInv(done + [step], Apply(s, step))
  {
    var next := Apply(s, step);
    if step.Environment? {
      StepIsLater(s.tracker, step.step);
    } else {
      OwnFailureIsJustified(done, s, step);
    }
    forall id | id in next.calls ensures CallJustified(done + [step], next.tracker, id, next.calls[id]) {
      if step.Environment? || id != step.id {
        assert next.calls[id] == s.calls[id] && CallJustified(done, s.tracker, id, s.calls[id]);
      }
    }
  }

  lemma NextStep(all: seq<Step>, n: nat, s: State, last: State)
    requires n < |all| && Follows(s, all[n..], last)
    ensures Enabled(s, all[n]) && Follows(Apply(s, all[n]), all[n + 1..], last)
  {
    assert all[n..][1..] == all[n + 1..];
  }

  lemma {:induction false} RunKeepsFailInv(all: seq<Step>, n: nat, s: State, last: State)
    requires n <= |all| && Follows(s, all[n..], last) && FailInv(all[..n], s)
    ensures FailInv(all, last)
    decreases |all| - n
  {
    if n == |all| {
      assert all[..n] == all;
    } else {
      NextStep(all, n, s, last);
      StepKeepsFailInv(all[..n], s, all[n]);
      assert all[..n + 1] == all[..n] + [all[n]];
      RunKeepsFailInv(all, n + 1, Apply(s, all[n]), last);
    }
  }

  /** In every interleaving a call fails only if one of its own health reads found the flag down, which then
      stays down, or its own load failed. */
  lemma CallFailureIsJustified(s: State, steps: seq<Step>, last: State, id: nat)
    requires Started(s) && Follows(s, steps, last)
    requires id in last.calls && last.calls[id].phase.Done? && last.calls[id].phase.outcome.Failed?
    ensures FailureJustified(steps, last.tracker, id, last.calls[id].phase.outcome.cause)
  {
    assert steps[0..] == steps && steps[..0] == [];
    RunKeepsFailInv(steps, 0, s, last);
    assert CallJustified(steps, last.tracker, id, last.calls[id]);
  }

  /** In every interleaving, as long as some call is not done, some call can go on: no lock is left behind. */
  lemma CallsCanGoOn(s: State, steps: seq<Step>, last: State, id: nat) returns (step: Step)
    requires Started(s) && Follows(s, steps, last) && id in last.calls && !last.calls[id].phase.Done?
    ensures Enabled(last, step) && !step.Environment? && !step.Begin?
  {
    RunKeepsInv(s, steps, last);
    if last.writer.Some? {
      assert LocksAt(last, last.writer.value);
      step := StepOfWriter(last, last.writer.value);
    } else if last.readers != {} {
      var reader :| reader in last.readers;
      assert LocksAt(last, reader);
      step := CompareAndRelease(reader);
    } else {
      assert LocksAt(last, id);
      step := StepOfWaiting(last, id);
    }
  }

  lemma StepOfWriter(s: State, id: nat) returns (step: Step)
    requires id in s.calls && Writing(s.calls[id].phase)
    ensures Enabled(s, step) && !step.Environment? && !step.Begin?
  {
    match s.calls[id].phase
    case Reading(_, sawHealth) => step := if sawHealth then ReadGeneration(id) else ReadHealth(id);
    case Loading(_, _) => step := LoadPolicy(id, true);
    case Publishing(_, _) => step := Publish(id);
  }

  lemma StepOfWaiting(s: State, id: nat) returns (step: Step)
    requires id in s.calls && !s.calls[id].phase.Done? && s.writer.None? && s.readers == {}
    requires !Writing(s.calls[id].phase) && !s.calls[id].phase.HoldsRead?
    ensures Enabled(s, step) && !step.Environment? && !step.Begin?
  {
    match s.calls[id].phase
    case Reading(_, sawHealth) => step := if sawHealth then ReadGeneration(id) else ReadHealth(id);
    case WantsRead(_) => step := AcquireRead(id);
    case WantsWrite => step := AcquireWrite(id);
  }

  // ---------------------------------------------------------------- calls that are not interrupted

  /** No call holds the lock, the flag is up, and the call is new. */
  predicate Idle(s: State, id: nat) {
    s.writer.None? && s.readers == {} && Healthy(s.tracker) && id !in s.calls
  }

  /** The state with one call as given. */
  function With(s: State, id: nat, phase: Phase): State {
    s.(calls := s.calls[id := Call(s.tracker.bumps, phase)])
  }

  function CompareSteps(id: nat): seq<Step> {
    [Begin(id), ReadHealth(id), ReadGeneration(id)] + [AcquireRead(id), CompareAndRelease(id)]
  }

  lemma CallStarts(s: State, id: nat)
    requires Healthy(s.tracker) && id !in s.calls
    ensures Follows(s, [Begin(id), ReadHealth(id), ReadGeneration(id)], With(s, id, WantsRead(See(s.tracker))))
  {
    var steps, last := [Begin(id), ReadHealth(id), ReadGeneration(id)], With(s, id, WantsRead(See(s.tracker)));
    var s1 := Apply(s, steps[0]);
    var s2 := Apply(s1, steps[1]);
    assert Apply(s2, steps[2]) == last;
    assert Follows(s2, steps[2..], last);
    assert Follows(s1, steps[1..], last);
  }

  /** What comparing the cached epoch with the current one leads to. */
  function Compared(s: State): Phase {
    if s.cached.epoch == See(s.tracker).generation then Done(Returned(s.cached.provider, See(s.tracker))) else WantsWrite
  }

  lemma CallReads(s: State, id: nat)
    requires Idle(s, id)
    ensures Follows(With(s, id, WantsRead(See(s.tracker))), [AcquireRead(id), CompareAndRelease(id)], With(s, id, Compared(s)))
  {
    var steps, last := [AcquireRead(id), CompareAndRelease(id)], With(s, id, Compared(s));
    var s1 := Apply(With(s, id, WantsRead(See(s.tracker))), steps[0]);
    assert s1.readers - {id} == {};
    assert Apply(s1, steps[1]) == last;
    assert Follows(s1, steps[1..], last);
  }

  /** From every idle state, a call that meets no other step compares the cached epoch with the current one
      under the read lock: equal, it returns exactly the cached provider; otherwise it goes for the write lock. */
  lemma CallCompares(s: State, id: nat)
    requires Idle(s, id)
    ensures Follows(s, CompareSteps(id), With(s, id, Compared(s)))
  {
    CallStarts(s, id);
    CallReads(s, id);
    FollowsBoth(s, [Begin(id), ReadHealth(id), ReadGeneration(id)], With(s, id, WantsRead(See(s.tracker))),
                [AcquireRead(id), CompareAndRelease(id)], With(s, id, Compared(s)));
  }

  function RecheckSteps(id: nat): seq<Step> {
    [AcquireWrite(id), ReadHealth(id), ReadGeneration(id)]
  }

  /** Under the write lock the call compares once more: equal, it returns exactly the cached provider and
      leaves the lock; otherwise it loads. */
  lemma CallRechecks(s: State, id: nat)
    requires Idle(s, id)
    ensures Follows(With(s, id, WantsWrite), RecheckSteps(id),
                    if s.cached.epoch == See(s.tracker).generation then With(s, id, Done(Returned(s.cached.provider, See(s.tracker))))
                    else Locked(s, id, Reading(Before([]), false)))
  {
    var steps := RecheckSteps(id);
    var last := if s.cached.epoch == See(s.tracker).generation then With(s, id, Done(Returned(s.cached.provider, See(s.tracker))))
                else Locked(s, id, Reading(Before([]), false));
    var s1 := Apply(With(s, id, WantsWrite), steps[0]);
    var s2 := Apply(s1, steps[1]);
    assert Apply(s2, steps[2]) == last;
    assert Follows(s2, steps[2..], last);
    assert Follows(s1, steps[1..], last);
  }

  function WindowSteps(id: nat): seq<Step> {
    [ReadHealth(id), ReadGeneration(id), LoadPolicy(id, true)]
  }

  function PublishSteps(id: nat): seq<Step> {
    [ReadHealth(id), ReadGeneration(id), Publish(id)]
  }

  /** The call holds the write lock. */
  function Locked(s: State, id: nat, phase: Phase): State {
    With(s, id, phase).(writer := Some(id))
  }

  /** The state after a load: the current policy is cached under the current generation. */
  function Reloaded(s: State): State {
    s.(cached := Cached(s.tracker.version, See(s.tracker).generation, See(s.tracker).bump))
  }

  lemma CallOpensWindow(s: State, id: nat)
    requires Healthy(s.tracker)
    ensures Follows(Locked(s, id, Reading(Before([]), false)), WindowSteps(id),
                    Locked(s, id, Reading(After([], See(s.tracker), s.tracker.version), false)))
  {
    var steps, last := WindowSteps(id), Locked(s, id, Reading(After([], See(s.tracker), s.tracker.version), false));
    var s1 := Apply(Locked(s, id, Reading(Before([]), false)), steps[0]);
    var s2 := Apply(s1, steps[1]);
    assert Apply(s2, steps[2]) == last;
    assert Follows(s2, steps[2..], last);
    assert Follows(s1, steps[1..], last);
  }

  lemma CallPublishes(s: State, id: nat)
    requires Idle(s, id)
    ensures Follows(Locked(s, id, Reading(After([], See(s.tracker), s.tracker.version), false)), PublishSteps(id),
                    With(Reloaded(s), id, Done(Returned(s.tracker.version, See(s.tracker)))))
  {
    var steps, last := PublishSteps(id), With(Reloaded(s), id, Done(Returned(s.tracker.version, See(s.tracker))));
    var s1 := Apply(Locked(s, id, Reading(After([], See(s.tracker), s.tracker.version), false)), steps[0]);
    var s2 := Apply(s1, steps[1]);
    assert Apply(s2, steps[2]) == last;
    assert Follows(s2, steps[2..], last);
    assert Follows(s1, steps[1..], last);
  }

  function StepOf(): (State, Step) -> State {
    (s: State, step: Step) => if Enabled(s, step) then Apply(s, step) else s
  }

  lemma {:induction false} FollowsIsChain(s: State, steps: seq<Step>, last: State)
    ensures Follows(s, steps, last) <==> Chain(Enabled, StepOf(), s, steps, last)
    decreases |steps|
  {
    if steps != [] && Enabled(s, steps[0]) {
      FollowsIsChain(Apply(s, steps[0]), steps[1..], last);
    }
  }

  lemma FollowsBoth(s: State, first: seq<Step>, middle: State, second: seq<Step>, last: State)
    requires Follows(s, first, middle) && Follows(middle, second, last)
    ensures Follows(s, first + second, last)
  {
    FollowsIsChain(s, first, middle);
    FollowsIsChain(middle, second, last);
    ChainBoth(Enabled, StepOf(), s, first, middle, second, last);
    FollowsIsChain(s, first + second, last);
  }

  /** From every idle state with an outdated cache, a call that meets no other step and whose load succeeds
      publishes the current policy under the current generation, returns it, and leaves the lock. */
  lemma ColdCallReloads(s: State, id: nat)
    requires Idle(s, id) && s.cached.epoch != See(s.tracker).generation
    ensures Follows(s, CompareSteps(id) + RecheckSteps(id) + (WindowSteps(id) + PublishSteps(id)),
                    With(Reloaded(s), id, Done(Returned(s.tracker.version, See(s.tracker)))))
  {
    var loading, loaded := Locked(s, id, Reading(Before([]), false)), Locked(s, id, Reading(After([], See(s.tracker), s.tracker.version), false));
    var last := With(Reloaded(s), id, Done(Returned(s.tracker.version, See(s.tracker))));
    CallCompares(s, id);
    CallRechecks(s, id);
    FollowsBoth(s, CompareSteps(id), With(s, id, WantsWrite), RecheckSteps(id), loading);
    CallOpensWindow(s, id);
    CallPublishes(s, id);
    FollowsBoth(loading, WindowSteps(id), loaded, PublishSteps(id), last);
    FollowsBoth(s, CompareSteps(id) + RecheckSteps(id), loading, WindowSteps(id) + PublishSteps(id), last);
  }

  // ---------------------------------------------------------------- the retry loop by itself

  /** What one turn of the loop observes; `None` is a failed epoch read or a failed load. */
  datatype Turn = Turn(before: Option<nat>, provider: Option<nat>, after: Option<nat>)

  datatype LoadResult = Consistently(provider: nat, epoch: nat) | Unsettled | Broken

  predicate Complete(turn: Turn) {
    turn.before.Some? && turn.provider.Some? && turn.after.Some?
  }

  predicate Moved(turn: Turn) {
    Complete(turn) && turn.before != turn.after
  }

  /** The first turn that did not just find the epoch moved. */
  predicate SettledAt(turns: seq<Turn>, i: nat) {
    i < |turns| && !Moved(turns[i]) && forall j :: 0 <= j < i ==> Moved(turns[j])
  }

  /** What the loop has decided after some turns; none means another turn. */
  function Decide(turns: seq<Turn>): Option<LoadResult> {
    if turns == [] then None else
      var n := |turns| - 1;
      match Decide(turns[..n])
      case Some(r) => Some(r)
      case None =>
        if !Complete(turns[n]) then Some(Broken)
        else if !Moved(turns[n]) then Some(Consistently(turns[n].provider.value, turns[n].after.value))
        else if |turns| >= ATTEMPTS then Some(Unsettled)
        else None
  }

  /** `load_consistent_cedar`: the first settled turn wins, the first failed turn ends the loop,
      and three moved turns are unstable. */
  method LoadConsistentCedar(turns: seq<Turn>) returns (r: LoadResult)
    requires |turns| == ATTEMPTS
    ensures Decide(turns) == Some(r)
    ensures r.Consistently? ==>
              exists i :: 0 <= i < ATTEMPTS && SettledAt(turns, i)
                          && turns[i] == Turn(Some(r.epoch), Some(r.provider), Some(r.epoch))
    ensures r.Unsettled? <==> forall j :: 0 <= j < ATTEMPTS ==> Moved(turns[j])
    ensures r.Broken? ==> exists i :: 0 <= i < ATTEMPTS && SettledAt(turns, i) && !Complete(turns[i])
  {
    for attempt := 0 to ATTEMPTS
      invariant forall j :: 0 <= j < attempt ==> Moved(turns[j])
    {
      var turn := turns[attempt];
      if !Moved(turn) {
        assert SettledAt(turns, attempt);
        SettledDecides(turns, attempt);
      }
      if turn.before.None? {
        return Broken;
      }
      if turn.provider.None? {
        return Broken;
      }
      if turn.after.None? {
        return Broken;
      }
      if turn.before == turn.after {
        return Consistently(turn.provider.value, turn.after.value);
      }
    }
    MovedTurnsGoOn(turns[..ATTEMPTS - 1]);
    return Unsettled;
  }

  lemma {:induction false} MovedTurnsGoOn(turns: seq<Turn>)
    requires |turns| < ATTEMPTS && forall j :: 0 <= j < |turns| ==> Moved(turns[j])
    ensures Decide(turns) == None
  {
    if turns != [] {
      MovedTurnsGoOn(turns[..|turns| - 1]);
    }
  }

  lemma {:induction false} SettledDecides(turns: seq<Turn>, i: nat)
    requires |turns| <= ATTEMPTS && SettledAt(turns, i)
    ensures Decide(turns) == Some(if Complete(turns[i]) then Consistently(turns[i].provider.value, turns[i].after.value) else Broken)
  {
    var n := |turns| - 1;
    if i == n {
      MovedTurnsGoOn(turns[..n]);
    } else {
      SettledDecides(turns[..n], i);
    }
  }

  // ---------------------------------------------------------------- the loop inside a call

  /** What the loop saw in earlier windows. */
  function TurnsOf(windows: seq<Window>): seq<Turn> {
    seq(|windows|, i requires 0 <= i < |windows| =>
      Turn(Some(windows[i].before.generation), Some(windows[i].provider), Some(windows[i].after.generation)))
  }

  lemma WindowsGoOn(windows: seq<Window>, start: nat, now: nat)
    requires |windows| < ATTEMPTS && AllMoved(windows, start, now)
    ensures Decide(TurnsOf(windows)) == None
  {
    MovedTurnsGoOn(TurnsOf(windows));
  }

  lemma DecideOneMore(turns: seq<Turn>, turn: Turn)
    requires Decide(turns) == None
    ensures Decide(turns + [turn]) ==
            if !Complete(turn) then Some(Broken)
            else if !Moved(turn) then Some(Consistently(turn.provider.value, turn.after.value))
            else if |turns| + 1 >= ATTEMPTS then Some(Unsettled)
            else None
  {
    assert (turns + [turn])[..|turns|] == turns;
  }

  /** A phase is where the loop goes from these turns. */
  predicate GoesOn(phase: Phase, turns: seq<Turn>, seen: Seen) {
    match Decide(turns)
    case None => phase.Reading? && !phase.sawHealth && phase.purpose.Before? && TurnsOf(phase.purpose.windows) == turns
    case Some(Consistently(provider, epoch)) => phase == Publishing(provider, seen) && epoch == seen.generation
    case Some(Unsettled) => phase.Done? && phase.outcome.Unstable? && TurnsOf(phase.outcome.windows) == turns
    case Some(Broken) => false
  }

  lemma WindowCloses(s: State, id: nat, windows: seq<Window>, before: Seen, provider: nat, seen: Seen)
    requires id in s.calls && Decide(TurnsOf(windows)) == None
    ensures GoesOn(AfterGeneration(s, id, After(windows, before, provider), seen).calls[id].phase,
                   TurnsOf(windows) + [Turn(Some(before.generation), Some(provider), Some(seen.generation))], seen)
  {
    var turn := Turn(Some(before.generation), Some(provider), Some(seen.generation));
    DecideOneMore(TurnsOf(windows), turn);
    assert TurnsOf(windows + [Window(before, provider, seen)]) == TurnsOf(windows) + [turn];
  }

  /** The windows of a call that is in the loop have not decided it. */
  lemma LoopIsUndecided(s: State, steps: seq<Step>, last: State, id: nat)
    requires Started(s) && Follows(s, steps, last) && last.tracker.bumps < GENERATIONS
    requires id in last.calls && last.calls[id].phase.Reading? && last.calls[id].phase.purpose.After?
    ensures Decide(TurnsOf(last.calls[id].phase.purpose.windows)) == None
  {
    RunKeepsInv(s, steps, last);
    var call := last.calls[id];
    assert CallSound(last.tracker, last.cached, call);
    WindowsGoOn(call.phase.purpose.windows, call.startBump, call.phase.purpose.before.bump);
  }

  /** In every interleaving, the closing epoch read of a load window takes the call exactly where the loop
      decides on the turns seen so far: to another turn, to publishing what was loaded, or to the
      unstable-revision error. */
  lemma CallFollowsTheLoop(s: State, steps: seq<Step>, last: State, id: nat)
    requires Started(s) && Follows(s, steps, last) && last.tracker.bumps < GENERATIONS
    requires Enabled(last, ReadGeneration(id)) && last.calls[id].phase.purpose.After?
    ensures var purpose, seen := last.calls[id].phase.purpose, See(last.tracker);
            GoesOn(Apply(last, ReadGeneration(id)).calls[id].phase,
                   TurnsOf(purpose.windows) + [Turn(Some(purpose.before.generation), Some(purpose.provider), Some(seen.generation))],
                   seen)
  {
    var purpose := last.calls[id].phase.purpose;
    LoopIsUndecided(s, steps, last, id);
    WindowCloses(last, id, purpose.windows, purpose.before, purpose.provider, See(last.tracker));
  }

  /** A turn that cannot be completed ends the call as it ends the loop: an epoch read without a healthy
      listener, or a failed load. */
  lemma BrokenTurnEndsTheCall(s: State, steps: seq<Step>, last: State, step: Step, turn: Turn)
    requires Started(s) && Follows(s, steps, last) && last.tracker.bumps < GENERATIONS
    requires Enabled(last, step) && !Complete(turn)
    requires || (step.ReadHealth? && !Healthy(last.tracker) && last.calls[step.id].phase.purpose.Before?)
             || (step.ReadHealth? && !Healthy(last.tracker) && last.calls[step.id].phase.purpose.After?)
             || (step.LoadPolicy? && !step.succeeds)
    ensures var phase := last.calls[step.id].phase;
            var windows := if phase.Loading? then phase.windows else phase.purpose.windows;
            Decide(TurnsOf(windows) + [turn]) == Some(Broken) && Apply(last, step).calls[step.id].phase.Done?
            && Apply(last, step).calls[step.id].phase.outcome.Failed?
  {
    RunKeepsInv(s, steps, last);
    var call := last.calls[step.id];
    assert CallSound(last.tracker, last.cached, call);
    var windows := if call.phase.Loading? then call.phase.windows else call.phase.purpose.windows;
    var now := if call.phase.Loading? then call.phase.before.bump
               else if call.phase.purpose.After? then call.phase.purpose.before.bump else last.tracker.bumps;
    WindowsGoOn(windows, call.startBump, now);
    DecideOneMore(TurnsOf(windows), turn);
  }
}
