/** The PostgreSQL invalidation tracker: a process-local generation counter that moves on
    every processed notification, on every local `invalidate()` and when the listener is lost.

    The database is a counter of authorization-affecting commits. Each commit queues one
    notification (migration 0009), delivered some time later and in commit order. */
module Invalidation {

  /** The number of values of the `AtomicU64` generation. */
  const GENERATIONS: nat := 0x1_0000_0000_0000_0000

  /** The listener task. `Dropping`: it has lowered the health flag, the final increment is still to come. */
  datatype Listener = Listening | Dropping | Stopped

  /** `healthy` is the flag that requests read; it is not the listener itself. `history` and `commitTimes`
      are history variables: the database version at each move of the generation, starting with the
      connection itself, and the time of every commit since. */
  datatype Tracker = Tracker(
    version: nat,
    delivered: nat,
    bumps: nat,
    healthy: bool,
    listener: Listener,
    history: seq<nat>,
    commitTimes: seq<nat>)

  /** What one `generation.load` returned. `bump` and `delivered` are history variables:
      how often the generation had moved, and how many commits had been announced. */
  datatype Seen = Seen(generation: nat, bump: nat, delivered: nat)

  datatype TrackerStep = Commit(atMs: nat) | Deliver | Invalidate | ListenerFails | ListenerBumps

  function Generation(bumps: nat): nat {
    (1 + bumps) % GENERATIONS
  }

  /** The number of moves behind a generation, as long as it has not wrapped around. */
  function BumpOf(generation: nat): nat {
    (generation + GENERATIONS - 1) % GENERATIONS
  }

  lemma GenerationDeterminesBump(bumps: nat)
    requires bumps < GENERATIONS
    ensures BumpOf(Generation(bumps)) == bumps
  {
  }

  predicate Healthy(t: Tracker) {
    t.healthy
  }

  /** Inside `connect`, when the listener has been registered: the flag is still down. */
  function Registered(version: nat): Tracker {
    Tracker(version, version, 0, false, Listening, [version], [])
  }

  /** The last act of `connect`: the flag goes up, whatever the listener task has done meanwhile. */
  function Raise(t: Tracker): Tracker {
    t.(healthy := true)
  }

  function Bump(t: Tracker): Tracker {
    t.(bumps := t.bumps + 1, history := t.history + [t.version])
  }

  predicate CanStep(t: Tracker, step: TrackerStep) {
    match step
    case Commit(_) => true
    case Deliver => t.listener.Listening? && t.delivered < t.version
    case Invalidate => true
    case ListenerFails => t.listener.Listening?
    case ListenerBumps => t.listener.Dropping?
  }

  function StepTracker(t: Tracker, step: TrackerStep): Tracker
    requires CanStep(t, step)
  {
    match step
    case Commit(atMs) => t.(version := t.version + 1, commitTimes := t.commitTimes + [atMs])
    case Deliver => Bump(t.(delivered := t.delivered + 1))
    case Invalidate => Bump(t)
    case ListenerFails => t.(healthy := false, listener := Dropping)
    case ListenerBumps => Bump(t.(listener := Stopped))
  }

  predicate TrackerFollows(t: Tracker, steps: seq<TrackerStep>, last: Tracker)
    decreases |steps|
  {
    if steps == [] then t == last else CanStep(t, steps[0]) && TrackerFollows(StepTracker(t, steps[0]), steps[1..], last)
  }

  /** What `connect` can return: the flag is up after any moves of the listener task. */
  ghost predicate Returned(t: Tracker) {
    exists version, steps, last :: TrackerFollows(Registered(version), steps, last) && t == Raise(last)
  }

  function See(t: Tracker): Seen {
    Seen(Generation(t.bumps), t.bumps, t.delivered)
  }

  /** The database version at the last move of the generation: every announced commit, and
      every commit before the last local invalidation, is at or below it. */
  function Floor(t: Tracker): nat {
    if t.bumps < |t.history| then t.history[t.bumps] else 0
  }

  predicate Consistent(t: Tracker) {
    && |t.history| == t.bumps + 1
    && (forall i, j :: 0 <= i <= j < |t.history| ==> t.history[i] <= t.history[j])
    && t.delivered <= t.history[t.bumps] <= t.version
  }

  /** Time only adds to a tracker. */
  predicate Later(t: Tracker, u: Tracker) {
    && t.history <= u.history
    && t.bumps <= u.bumps
    && t.version <= u.version
    && t.delivered <= u.delivered
    && t.commitTimes <= u.commitTimes
    && (Healthy(u) ==> Healthy(t))
  }

  lemma StepIsLater(t: Tracker, step: TrackerStep)
    requires Consistent(t) && CanStep(t, step)
    ensures Consistent(StepTracker(t, step)) && Later(t, StepTracker(t, step))
  {
  }

  /** A generation once read stays tied to the same point of the history. */
  predicate SeenBefore(t: Tracker, seen: Seen)
    requires Consistent(t)
  {
    && seen.bump <= t.bumps
    && seen.generation == Generation(seen.bump)
    && seen.delivered <= t.history[seen.bump]
  }

  /** A generation is a sound label for facts of a database version: the version is no older
      than the moment at which the counter reached that generation. */
  predicate LabelSound(t: Tracker, generation: nat, snapshot: nat)
    requires Consistent(t)
  {
    var b := BumpOf(generation);
    b <= t.bumps && t.history[b] <= snapshot
  }

  lemma LaterKeeps(t: Tracker, u: Tracker, seen: Seen, generation: nat, snapshot: nat)
    requires Consistent(t) && Consistent(u) && Later(t, u)
    ensures SeenBefore(t, seen) ==> SeenBefore(u, seen)
    ensures LabelSound(t, generation, snapshot) ==> LabelSound(u, generation, snapshot)
  {
    assert forall i :: 0 <= i < |t.history| ==> t.history[i] == u.history[i];
  }

  // ---------------------------------------------------------------- the flag and the listener

  lemma {:induction false} RunIsLater(t: Tracker, steps: seq<TrackerStep>, last: Tracker)
    requires Consistent(t) && TrackerFollows(t, steps, last)
    ensures Consistent(last) && Later(t, last)
    decreases |steps|
  {
    if steps != [] {
      StepIsLater(t, steps[0]);
      RunIsLater(StepTracker(t, steps[0]), steps[1..], last);
    }
  }

  lemma ReturnedIsConsistent(t: Tracker)
    requires Returned(t)
    ensures Consistent(t) && Healthy(t)
  {
    var version, steps, last :| TrackerFollows(Registered(version), steps, last) && t == Raise(last);
    RunIsLater(Registered(version), steps, last);
  }

  lemma {:induction false} FlagFollowsListener(t: Tracker, steps: seq<TrackerStep>, last: Tracker)
    requires TrackerFollows(t, steps, last) && (Healthy(t) <==> t.listener.Listening?)
    ensures Healthy(last) <==> last.listener.Listening?
    decreases |steps|
  {
    if steps != [] {
      FlagFollowsListener(StepTracker(t, steps[0]), steps[1..], last);
    }
  }

  lemma {:induction false} LostListenerStaysLost(t: Tracker, steps: seq<TrackerStep>, last: Tracker)
    requires TrackerFollows(t, steps, last) && !t.listener.Listening?
    ensures !last.listener.Listening? && last.healthy == t.healthy && last.delivered == t.delivered
    decreases |steps|
  {
    if steps != [] {
      LostListenerStaysLost(StepTracker(t, steps[0]), steps[1..], last);
    }
  }

  /** At every later moment the flag says whether the listener is there. */
  ghost predicate FlagStaysTrue(t: Tracker) {
    forall steps, last :: TrackerFollows(t, steps, last) ==> (Healthy(last) <==> last.listener.Listening?)
  }

  lemma FlagIsTrueNow(t: Tracker, none: seq<TrackerStep>)
    requires FlagStaysTrue(t) && none == []
    ensures Healthy(t) <==> t.listener.Listening?
  {
    assert TrackerFollows(t, none, t);
  }

  /** The flag says at every later moment whether the listener is there, exactly when the listener was still
      there as `connect` raised the flag. Otherwise the flag stays up for good and nothing is ever
      announced again. */
  lemma FlagIsTrueExactly(t: Tracker)
    requires Returned(t)
    ensures FlagStaysTrue(t) <==> t.listener.Listening?
    ensures !t.listener.Listening? ==>
              forall steps, last :: TrackerFollows(t, steps, last) ==> Healthy(last) && last.delivered == t.delivered
  {
    ReturnedIsConsistent(t);
    if t.listener.Listening? {
      forall steps, last | TrackerFollows(t, steps, last) ensures Healthy(last) <==> last.listener.Listening? {
        FlagFollowsListener(t, steps, last);
      }
    } else {
      if FlagStaysTrue(t) {
        FlagIsTrueNow(t, []);
      }
      forall steps, last | TrackerFollows(t, steps, last) ensures Healthy(last) && last.delivered == t.delivered {
        LostListenerStaysLost(t, steps, last);
      }
    }
  }

  /** Both happen: `connect` returns with the listener at work, or with the flag up and the listener lost. */
  lemma ConnectRaces(version: nat)
    ensures Returned(Raise(Registered(version))) && Registered(version).listener.Listening?
    ensures var lost := StepTracker(Registered(version), ListenerFails);
            Returned(Raise(lost)) && Healthy(Raise(lost)) && !lost.listener.Listening?
  {
    var t := Registered(version);
    var lost := StepTracker(t, ListenerFails);
    assert TrackerFollows(t, [], t);
    assert TrackerFollows(lost, [ListenerFails][1..], lost);
    assert TrackerFollows(t, [ListenerFails], lost);
  }
}
