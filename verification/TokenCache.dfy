/** The bounded token cache of the native ingress: a `VecDeque` behind a mutex whose
    back is the most recently touched entry. */
module TokenCache {
  import opened Common

  /** SHA-256 digest of a bearer token. */
  type Key = Bytes

  /** The clock during one load: when the token was decoded and the session queried, in seconds, and the
      moment of the query in milliseconds. */
  datatype Reading = Reading(decodedAt: nat, queriedAt: nat, ms: nat)

  /** Facts about one bearer token. `snapshot` and `reading` are history variables: the version of the
      database the facts were loaded from, and the clock at that load. No operation of the cache looks
      at them. */
  datatype Verified = Verified(
    user: string,
    tenant: Option<string>,
    session: string,
    permissions: set<string>,
    issuedAtSeconds: nat,
    expiresAtSeconds: nat,
    snapshot: nat,
    reading: Reading)

  datatype Entry = Entry(key: Key, verified: Verified, epoch: nat, validatedAtMs: nat)

  datatype Limits = Limits(capacity: nat, revalidateMs: nat)

  // ---------------------------------------------------------------- the operations on values

  /** `iter().position(..)`: the first index of the key, or the length. */
  function Position(cache: seq<Entry>, key: Key): (p: nat)
    ensures p <= |cache|
    ensures p < |cache| ==> cache[p].key == key
    ensures forall i :: 0 <= i < p ==> cache[i].key != key
  {
    if cache == [] || cache[0].key == key then 0 else 1 + Position(cache[1..], key)
  }

  function Without(cache: seq<Entry>, key: Key): seq<Entry> {
    var p := Position(cache, key);
    if p < |cache| then cache[..p] + cache[p + 1..] else cache
  }

  predicate Servable(entry: Entry, nowSeconds: nat, nowMs: nat, limits: Limits) {
    && nowSeconds < entry.verified.expiresAtSeconds
    && SaturatingSub(nowMs, entry.validatedAtMs) <= limits.revalidateMs
  }

  /** What a lookup hands out: the entry of the key, if it may still be served. */
  function Found(cache: seq<Entry>, key: Key, nowSeconds: nat, nowMs: nat, limits: Limits): Option<Entry> {
    var p := Position(cache, key);
    if p < |cache| && Servable(cache[p], nowSeconds, nowMs, limits) then Some(cache[p]) else None
  }

  function AfterLookup(cache: seq<Entry>, key: Key, nowSeconds: nat, nowMs: nat, limits: Limits): seq<Entry> {
    match Found(cache, key, nowSeconds, nowMs, limits)
    case Some(entry) => Without(cache, key) + [entry]
    case None => Without(cache, key)
  }

  function Newest(cache: seq<Entry>, capacity: nat): seq<Entry> {
    if |cache| <= capacity then cache else cache[|cache| - capacity..]
  }

  function AfterStore(cache: seq<Entry>, entry: Entry, limits: Limits): seq<Entry> {
    Newest(Without(cache, entry.key) + [entry], limits.capacity)
  }

  // ---------------------------------------------------------------- the locked deque

  class Deque {
    var entries: seq<Entry>
    const limits: Limits

    constructor (limits: Limits)
      ensures this.limits == limits && entries == []
    {
      this.limits := limits;
      entries := [];
    }

    method CachedToken(key: Key, nowSeconds: nat, nowMs: nat) returns (found: Option<Entry>)
      modifies this`entries
      ensures found == Found(old(entries), key, nowSeconds, nowMs, limits)
      ensures entries == AfterLookup(old(entries), key, nowSeconds, nowMs, limits)
    {
      var index := Position(entries, key);
      if index == |entries| {
        return None;
      }
      var entry := entries[index];
      entries := entries[..index] + entries[index + 1..];
      if entry.verified.expiresAtSeconds <= nowSeconds
        || SaturatingSub(nowMs, entry.validatedAtMs) > limits.revalidateMs
      {
        return None;
      }
      entries := entries + [entry];
      return Some(entry);
    }

    method CacheToken(key: Key, verified: Verified, epoch: nat, nowMs: nat)
      modifies this`entries
      ensures entries == AfterStore(old(entries), Entry(key, verified, epoch, nowMs), limits)
    {
      var index := Position(entries, key);
      if index < |entries| {
        entries := entries[..index] + entries[index + 1..];
      }
      entries := entries + [Entry(key, verified, epoch, nowMs)];
      ghost var pushed := entries;
      assert pushed == Without(old(entries), key) + [Entry(key, verified, epoch, nowMs)];
      while |entries| > limits.capacity
        invariant Min(|pushed|, limits.capacity) <= |entries| <= |pushed|
        invariant entries == pushed[|pushed| - |entries|..]
        decreases |entries|
      {
        entries := entries[1..];
      }
      assert entries == Newest(pushed, limits.capacity);
    }

    method RemoveCachedToken(key: Key)
      modifies this`entries
      ensures entries == Without(old(entries), key)
    {
      var index := Position(entries, key);
      if index < |entries| {
        entries := entries[..index] + entries[index + 1..];
      }
    }
  }

  // ---------------------------------------------------------------- every sequence of operations

  datatype Op =
    | Lookup(key: Key, nowSeconds: nat, nowMs: nat)
    | Store(entry: Entry)
    | Forget(key: Key)

  function Apply(cache: seq<Entry>, op: Op, limits: Limits): seq<Entry> {
    match op
    case Lookup(key, nowSeconds, nowMs) => AfterLookup(cache, key, nowSeconds, nowMs, limits)
    case Store(entry) => AfterStore(cache, entry, limits)
    case Forget(key) => Without(cache, key)
  }

  function Run(ops: seq<Op>, limits: Limits): seq<Entry> {
    if ops == [] then [] else Apply(Run(ops[..|ops| - 1], limits), ops[|ops| - 1], limits)
  }

  /** The same from any cache on, first operation first. */
  function RunFrom(cache: seq<Entry>, ops: seq<Op>, limits: Limits): seq<Entry>
    decreases |ops|
  {
    if ops == [] then cache else RunFrom(Apply(cache, ops[0], limits), ops[1..], limits)
  }

  lemma RunOfOneMore(ops: seq<Op>, op: Op, limits: Limits)
    ensures Run(ops + [op], limits) == Apply(Run(ops, limits), op, limits)
  {
    assert (ops + [op])[..|ops|] == ops;
  }

  lemma {:induction false} RunFromLast(cache: seq<Entry>, ops: seq<Op>, limits: Limits)
    requires ops != []
    ensures RunFrom(cache, ops, limits) == Apply(RunFrom(cache, ops[..|ops| - 1], limits), ops[|ops| - 1], limits)
    decreases |ops|
  {
    if |ops| > 1 {
      var next := Apply(cache, ops[0], limits);
      RunFromLast(next, ops[1..], limits);
      assert ops[1..][..|ops| - 2] == ops[..|ops| - 1][1..];
    }
  }

  lemma {:induction false} RunFromStart(ops: seq<Op>, limits: Limits)
    ensures RunFrom([], ops, limits) == Run(ops, limits)
  {
    if ops != [] {
      RunFromStart(ops[..|ops| - 1], limits);
      RunFromLast([], ops, limits);
    }
  }

  /** The key an operation touches: the key stored, or the key hit. */
  function Touched(cache: seq<Entry>, op: Op, limits: Limits): Option<Key> {
    match op
    case Lookup(key, nowSeconds, nowMs) =>
      if Found(cache, key, nowSeconds, nowMs, limits).Some? then Some(key) else None
    case Store(entry) => Some(entry.key)
    case Forget(_) => None
  }

  /** The key touched by each operation of the sequence, in order. */
  function Touches(ops: seq<Op>, limits: Limits): (log: seq<Option<Key>>)
    ensures |log| == |ops|
  {
    if ops == [] then [] else
      var before := ops[..|ops| - 1];
      Touches(before, limits) + [Touched(Run(before, limits), ops[|ops| - 1], limits)]
  }

  /** The index of the last touch of a key, or -1. */
  function LastTouch(log: seq<Option<Key>>, key: Key): (i: int)
    ensures -1 <= i < |log|
    ensures i >= 0 ==> log[i] == Some(key)
  {
    if log == [] then -1
    else if log[|log| - 1] == Some(key) then |log| - 1
    else LastTouch(log[..|log| - 1], key)
  }

  predicate UniqueKeys(cache: seq<Entry>) {
    forall i, j :: 0 <= i < j < |cache| ==> cache[i].key != cache[j].key
  }

  /** Front to back is the order of last touches. */
  predicate LastTouchOrder(cache: seq<Entry>, log: seq<Option<Key>>) {
    && (forall i :: 0 <= i < |cache| ==> 0 <= LastTouch(log, cache[i].key))
    && (forall i, j :: 0 <= i < j < |cache| ==> LastTouch(log, cache[i].key) < LastTouch(log, cache[j].key))
  }

  lemma WithoutAt(cache: seq<Entry>, key: Key, i: nat)
    requires i < |Without(cache, key)|
    ensures i < |cache|
    ensures Without(cache, key)[i] == if i < Position(cache, key) then cache[i] else cache[i + 1]
  {
  }

  lemma WithoutRemovesKey(cache: seq<Entry>, key: Key)
    requires UniqueKeys(cache)
    ensures UniqueKeys(Without(cache, key))
    ensures forall i :: 0 <= i < |Without(cache, key)| ==> Without(cache, key)[i].key != key
  {
    var w := Without(cache, key);
    forall i, j | 0 <= i < j < |w| ensures w[i].key != w[j].key {
      WithoutAt(cache, key, i);
      WithoutAt(cache, key, j);
    }
    forall i | 0 <= i < |w| ensures w[i].key != key {
      WithoutAt(cache, key, i);
    }
  }

  lemma WithoutKeepsOthers(cache: seq<Entry>, key: Key, entry: Entry)
    requires entry.key != key
    ensures entry in cache <==> entry in Without(cache, key)
  {
    var p := Position(cache, key);
    if p < |cache| {
      assert cache == cache[..p] + [cache[p]] + cache[p + 1..];
    }
  }

  lemma WithoutKeepsOrder(cache: seq<Entry>, key: Key, log: seq<Option<Key>>)
    requires LastTouchOrder(cache, log)
    ensures LastTouchOrder(Without(cache, key), log)
  {
    var w := Without(cache, key);
    forall i | 0 <= i < |w| ensures 0 <= LastTouch(log, w[i].key) {
      WithoutAt(cache, key, i);
    }
    forall i, j | 0 <= i < j < |w| ensures LastTouch(log, w[i].key) < LastTouch(log, w[j].key) {
      WithoutAt(cache, key, i);
      WithoutAt(cache, key, j);
    }
  }

  /** Pushing the entry of the key touched last keeps the order. */
  lemma PushKeepsOrder(cache: seq<Entry>, entry: Entry, log: seq<Option<Key>>)
    requires UniqueKeys(cache) && LastTouchOrder(cache, log)
    requires forall i :: 0 <= i < |cache| ==> cache[i].key != entry.key
    ensures UniqueKeys(cache + [entry])
    ensures LastTouchOrder(cache + [entry], log + [Some(entry.key)])
  {
    var log' := log + [Some(entry.key)];
    assert log'[..|log|] == log;
    forall i | 0 <= i < |cache| ensures LastTouch(log', cache[i].key) == LastTouch(log, cache[i].key) < |log| {
    }
    assert LastTouch(log', entry.key) == |log|;
  }

  lemma QuietStepKeepsOrder(cache: seq<Entry>, log: seq<Option<Key>>)
    requires LastTouchOrder(cache, log)
    ensures LastTouchOrder(cache, log + [None])
  {
    assert (log + [None])[..|log|] == log;
  }

  lemma NewestKeepsOrder(cache: seq<Entry>, capacity: nat, log: seq<Option<Key>>)
    requires UniqueKeys(cache) && LastTouchOrder(cache, log)
    ensures UniqueKeys(Newest(cache, capacity)) && LastTouchOrder(Newest(cache, capacity), log)
    ensures |Newest(cache, capacity)| <= capacity
  {
  }

  /** Unique keys, within capacity, in last-touch order. */
  predicate InOrder(cache: seq<Entry>, log: seq<Option<Key>>, limits: Limits) {
    UniqueKeys(cache) && |cache| <= limits.capacity && LastTouchOrder(cache, log)
  }

  lemma LookupKeepsOrder(cache: seq<Entry>, log: seq<Option<Key>>, key: Key, nowSeconds: nat, nowMs: nat, limits: Limits)
    requires InOrder(cache, log, limits)
    ensures var op := Lookup(key, nowSeconds, nowMs);
            InOrder(Apply(cache, op, limits), log + [Touched(cache, op, limits)], limits)
  {
    WithoutRemovesKey(cache, key);
    WithoutKeepsOrder(cache, key, log);
    var found := Found(cache, key, nowSeconds, nowMs, limits);
    if found.Some? {
      PushKeepsOrder(Without(cache, key), found.value, log);
    } else {
      QuietStepKeepsOrder(Without(cache, key), log);
    }
  }

  lemma StoreKeepsOrder(cache: seq<Entry>, log: seq<Option<Key>>, entry: Entry, limits: Limits)
    requires InOrder(cache, log, limits)
    ensures InOrder(AfterStore(cache, entry, limits), log + [Some(entry.key)], limits)
  {
    WithoutRemovesKey(cache, entry.key);
    WithoutKeepsOrder(cache, entry.key, log);
    PushKeepsOrder(Without(cache, entry.key), entry, log);
    NewestKeepsOrder(Without(cache, entry.key) + [entry], limits.capacity, log + [Some(entry.key)]);
  }

  lemma ForgetKeepsOrder(cache: seq<Entry>, log: seq<Option<Key>>, key: Key, limits: Limits)
    requires InOrder(cache, log, limits)
    ensures InOrder(Without(cache, key), log + [None], limits)
  {
    WithoutRemovesKey(cache, key);
    WithoutKeepsOrder(cache, key, log);
    QuietStepKeepsOrder(Without(cache, key), log);
  }

  lemma OpKeepsOrder(cache: seq<Entry>, log: seq<Option<Key>>, op: Op, limits: Limits)
    requires InOrder(cache, log, limits)
    ensures InOrder(Apply(cache, op, limits), log + [Touched(cache, op, limits)], limits)
  {
    match op
    case Lookup(key, nowSeconds, nowMs) => LookupKeepsOrder(cache, log, key, nowSeconds, nowMs, limits);
    case Store(entry) => StoreKeepsOrder(cache, log, entry, limits);
    case Forget(key) => ForgetKeepsOrder(cache, log, key, limits);
  }

  /** After any sequence of operations the keys are unique, the size is within capacity
      and the deque is in last-touch order. */
  lemma {:induction false} RunKeepsOrder(ops: seq<Op>, limits: Limits)
    ensures UniqueKeys(Run(ops, limits))
    ensures |Run(ops, limits)| <= limits.capacity
    ensures LastTouchOrder(Run(ops, limits), Touches(ops, limits))
  {
    if ops != [] {
      var before := ops[..|ops| - 1];
      RunKeepsOrder(before, limits);
      OpKeepsOrder(Run(before, limits), Touches(before, limits), ops[|ops| - 1], limits);
    }
  }

  /** The keys touched strictly after an index. */
  ghost function TouchedSince(log: seq<Option<Key>>, from: int): set<Key>
    requires -1 <= from
  {
    set i | from < i < |log| && log[i].Some? :: log[i].value
  }

  /** A key is evicted by a store of another key only after at least `capacity` distinct
      other keys were stored or hit since its own last touch. */
  lemma EvictionNeedsCapacityTouches(ops: seq<Op>, entry: Entry, key: Key, limits: Limits)
    requires key != entry.key
    requires exists e :: e in Run(ops, limits) && e.key == key
    requires forall e :: e in Run(ops + [Store(entry)], limits) ==> e.key != key
    ensures var log := Touches(ops + [Store(entry)], limits);
            && 0 <= LastTouch(log, key)
            && |TouchedSince(log, LastTouch(log, key)) - {key}| >= limits.capacity
  {
    var cache, log0 := Run(ops, limits), Touches(ops, limits);
    var all := ops + [Store(entry)];
    assert all[..|all| - 1] == ops;
    var log := Touches(all, limits);
    assert log == log0 + [Some(entry.key)];
    RunKeepsOrder(ops, limits);
    var kept := Without(cache, entry.key);
    WithoutRemovesKey(cache, entry.key);
    WithoutKeepsOrder(cache, entry.key, log0);
    PushKeepsOrder(kept, entry, log0);
    var pushed := kept + [entry];
    assert Run(all, limits) == Newest(pushed, limits.capacity);
    var e :| e in cache && e.key == key;
    WithoutKeepsOthers(cache, entry.key, e);
    var x :| 0 <= x < |kept| && kept[x] == e;
    DroppedKeyIsOlder(pushed, x, limits.capacity, log);
  }

  lemma NewestKeepsTheBack(pushed: seq<Entry>, x: nat, capacity: nat)
    requires |pushed| - capacity <= x < |pushed|
    ensures pushed[x] in Newest(pushed, capacity)
  {
    var newest := Newest(pushed, capacity);
    assert newest[x - (|pushed| - |newest|)] == pushed[x];
  }

  lemma DroppedKeyIsOlder(pushed: seq<Entry>, x: nat, capacity: nat, log: seq<Option<Key>>)
    requires x < |pushed|
    requires UniqueKeys(pushed) && LastTouchOrder(pushed, log)
    requires forall e :: e in Newest(pushed, capacity) ==> e.key != pushed[x].key
    ensures |TouchedSince(log, LastTouch(log, pushed[x].key)) - {pushed[x].key}| >= capacity
  {
    var cut := |pushed| - capacity;
    var newest := Newest(pushed, capacity);
    if x >= cut {
      NewestKeepsTheBack(pushed, x, capacity);
      assert false;
    }
    var since := TouchedSince(log, LastTouch(log, pushed[x].key)) - {pushed[x].key};
    forall i | 0 <= i < |newest| ensures newest[i].key in since {
      assert newest[i] == pushed[cut + i];
      NewerKeyIsTouchedSince(pushed, x, cut + i, log);
    }
    DistinctKeysCount(newest, since);
  }

  lemma NewerKeyIsTouchedSince(pushed: seq<Entry>, x: nat, j: nat, log: seq<Option<Key>>)
    requires x < j < |pushed| && UniqueKeys(pushed) && LastTouchOrder(pushed, log)
    ensures pushed[j].key in TouchedSince(log, LastTouch(log, pushed[x].key)) - {pushed[x].key}
  {
    assert LastTouch(log, pushed[j].key) > LastTouch(log, pushed[x].key);
    assert log[LastTouch(log, pushed[j].key)] == Some(pushed[j].key);
  }

  lemma {:induction false} DistinctKeysCount(cache: seq<Entry>, keys: set<Key>)
    requires UniqueKeys(cache)
    requires forall i :: 0 <= i < |cache| ==> cache[i].key in keys
    ensures |cache| <= |keys|
  {
    if cache != [] {
      DistinctKeysCount(cache[1..], keys - {cache[0].key});
    }
  }

  // ---------------------------------------------------------------- how long one verification is served

  /** The store at index m is the last write to its key. */
  predicate LastWrite(ops: seq<Op>, m: nat) {
    && m < |ops| && ops[m].Store?
    && forall i :: m < i < |ops| ==> !WritesKey(ops[i], ops[m].entry.key)
  }

  /** One operation either stores the entry or leaves it as it was. */
  lemma EntrySurvivesOrIsStored(cache: seq<Entry>, op: Op, limits: Limits, entry: Entry)
    requires UniqueKeys(cache)
    requires entry in Apply(cache, op, limits)
    ensures op == Store(entry) || (entry in cache && !WritesKey(op, entry.key))
  {
    var key := match op case Lookup(k, _, _) => k case Store(e) => e.key case Forget(k) => k;
    WithoutRemovesKey(cache, key);
    if entry.key != key {
      WithoutKeepsOthers(cache, key, entry);
    }
    if op.Store? {
      var pushed := Without(cache, key) + [op.entry];
      assert entry in pushed;
    }
  }

  lemma KeysStayUnique(cache: seq<Entry>, op: Op, limits: Limits)
    requires UniqueKeys(cache)
    ensures UniqueKeys(Apply(cache, op, limits))
  {
    var key := match op case Lookup(k, _, _) => k case Store(e) => e.key case Forget(k) => k;
    WithoutRemovesKey(cache, key);
  }

  /** A lookup leaves the other entries alone; its own entry stays, unchanged, exactly when it is served. */
  lemma LookupEffect(cache: seq<Entry>, key: Key, nowSeconds: nat, nowMs: nat, limits: Limits, entry: Entry)
    requires UniqueKeys(cache)
    ensures entry in AfterLookup(cache, key, nowSeconds, nowMs, limits) <==>
            entry in cache && (entry.key == key ==> Servable(entry, nowSeconds, nowMs, limits))
  {
    var p := Position(cache, key);
    WithoutRemovesKey(cache, key);
    if entry.key != key {
      WithoutKeepsOthers(cache, key, entry);
    } else if entry in cache {
      var i :| 0 <= i < |cache| && cache[i] == entry;
      assert i == p;
    }
  }

  predicate WritesKey(op: Op, key: Key) {
    match op
    case Lookup(_, _, _) => false
    case Store(entry) => entry.key == key
    case Forget(k) => k == key
  }

  /** Every cached entry is exactly what the last store of its key put there: hits move it
      but never renew it. */
  lemma EntryOrigin(ops: seq<Op>, limits: Limits, entry: Entry)
    requires entry in Run(ops, limits)
    ensures exists m: nat :: LastWrite(ops, m) && ops[m].entry == entry
  {
    var m := FindOrigin(ops, limits, entry);
  }

  lemma {:induction false} FindOrigin(ops: seq<Op>, limits: Limits, entry: Entry) returns (m: nat)
    requires entry in Run(ops, limits)
    ensures LastWrite(ops, m) && ops[m].entry == entry
  {
    var n := |ops| - 1;
    if ops[n] == Store(entry) {
      m := n;
    } else {
      var before, op := ops[..n], ops[n];
      EntryWasThere(before, op, limits, entry);
      m := FindOrigin(before, limits, entry);
      LastWriteStays(before, op, m);
      assert ops == before + [op];
    }
  }

  lemma EntryWasThere(before: seq<Op>, op: Op, limits: Limits, entry: Entry)
    requires entry in Apply(Run(before, limits), op, limits) && op != Store(entry)
    ensures entry in Run(before, limits) && !WritesKey(op, entry.key)
  {
    RunKeepsOrder(before, limits);
    EntrySurvivesOrIsStored(Run(before, limits), op, limits, entry);
  }

  lemma LastWriteStays(before: seq<Op>, op: Op, m: nat)
    requires LastWrite(before, m) && !WritesKey(op, before[m].entry.key)
    ensures LastWrite(before + [op], m) && (before + [op])[m] == before[m]
  {
  }

  function TimeOf(op: Op): Option<nat> {
    match op
    case Lookup(_, _, nowMs) => Some(nowMs)
    case Store(entry) => Some(entry.validatedAtMs)
    case Forget(_) => None
  }

  predicate ClockNeverRunsBack(ops: seq<Op>) {
    forall i, j :: 0 <= i < j < |ops| && TimeOf(ops[i]).Some? && TimeOf(ops[j]).Some? ==>
      TimeOf(ops[i]).value <= TimeOf(ops[j]).value
  }

  /** Under a clock that never runs back, whatever was done in between, a hit serves the
      verification of one earlier store no more than `revalidateMs` after that store and
      before its expiry second. */
  lemma ServedOnlyWhileFresh(ops: seq<Op>, key: Key, nowSeconds: nat, nowMs: nat, limits: Limits, entry: Entry)
    requires ClockNeverRunsBack(ops + [Lookup(key, nowSeconds, nowMs)])
    requires Found(Run(ops, limits), key, nowSeconds, nowMs, limits) == Some(entry)
    ensures exists m: nat :: LastWrite(ops, m) && ops[m].entry == entry && entry.key == key
                        && entry.validatedAtMs <= nowMs <= entry.validatedAtMs + limits.revalidateMs
                        && nowSeconds < entry.verified.expiresAtSeconds
  {
    var all := ops + [Lookup(key, nowSeconds, nowMs)];
    EntryOrigin(ops, limits, entry);
    var m: nat :| LastWrite(ops, m) && ops[m].entry == entry;
    assert TimeOf(all[m]) == Some(entry.validatedAtMs) && TimeOf(all[|ops|]) == Some(nowMs);
  }
}
