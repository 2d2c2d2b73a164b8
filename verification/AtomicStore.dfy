/** The in-memory transaction boundary of the test kit: it stages a copy of the state and swaps it
    in only after every phase succeeded, and it answers retries from stored receipts. */
module AtomicStore {
  import opened Common

  datatype Stage = Events | Projections | Secrets | Outbox

  datatype SecretMutation = Put(credential: string, material: Bytes) | Delete(credential: string)

  datatype OutboxIntent =
    | Mail(kind: string, correlationId: string, recipient: string, text: string)
    | Relationship(tuple: string)

  /** The redacted record kept of an outbox intent. */
  datatype CapturedIntent = CapturedMail(kind: string, correlationId: string) | CapturedRelationship(tuple: string)

  datatype Mutation = Mutation(
    key: string,
    operation: string,
    requestHash: Bytes,
    events: seq<string>,
    projections: seq<string>,
    secrets: seq<SecretMutation>,
    outbox: seq<OutboxIntent>)

  datatype Receipt = Receipt(revision: nat, replayed: bool)

  datatype StoredReceipt = StoredReceipt(operation: string, requestHash: Bytes, revision: nat)

  datatype State = State(
    revision: nat,
    receipts: map<string, StoredReceipt>,
    events: seq<string>,
    projections: seq<string>,
    secrets: map<string, Bytes>,
    outbox: seq<CapturedIntent>)

  datatype StoreError = Injected(stage: Stage) | IdempotencyConflict

  const EMPTY := State(0, map[], [], [], map[], [])

  function Capture(intent: OutboxIntent): CapturedIntent {
    match intent
    case Mail(kind, correlationId, _, _) => CapturedMail(kind, correlationId)
    case Relationship(tuple) => CapturedRelationship(tuple)
  }

  function CaptureAll(intents: seq<OutboxIntent>): seq<CapturedIntent> {
    seq(|intents|, i requires 0 <= i < |intents| => Capture(intents[i]))
  }

  function WithSecret(vault: map<string, Bytes>, secret: SecretMutation): map<string, Bytes> {
    match secret
    case Put(credential, material) => vault[credential := material]
    case Delete(credential) => vault - {credential}
  }

  function WithSecrets(vault: map<string, Bytes>, secrets: seq<SecretMutation>): map<string, Bytes> {
    if secrets == [] then vault
    else WithSecret(WithSecrets(vault, secrets[..|secrets| - 1]), secrets[|secrets| - 1])
  }

  /** The state with one mutation applied in full. */
  function Committed(s: State, m: Mutation): State {
    var revision := SaturatingAdd(s.revision, |m.events|);
    State(revision,
          s.receipts[m.key := StoredReceipt(m.operation, m.requestHash, revision)],
          s.events + m.events,
          s.projections + m.projections,
          WithSecrets(s.secrets, m.secrets),
          s.outbox + CaptureAll(m.outbox))
  }

  /** The last failure injected by other threads while a commit is under way, before each of its checks:
      the control lock is not the state lock. */
  datatype Interference = Interference(
    beforeEvents: Option<Stage>,
    beforeProjections: Option<Stage>,
    beforeSecrets: Option<Stage>,
    beforeOutbox: Option<Stage>)

  const CALM := Interference(None, None, None, None)

  /** An injection replaces a pending one. */
  function Newer(pending: Option<Stage>, arrival: Option<Stage>): Option<Stage> {
    if arrival.Some? then arrival else pending
  }

  /** The order of the checks. */
  function Rank(stage: Stage): nat {
    match stage case Events => 0 case Projections => 1 case Secrets => 2 case Outbox => 3
  }

  /** What the check of a stage finds pending, if no check before it fired. */
  function PendingAt(failNext: Option<Stage>, late: Interference, stage: Stage): Option<Stage>
    decreases Rank(stage)
  {
    match stage
    case Events => Newer(failNext, late.beforeEvents)
    case Projections => Newer(PendingAt(failNext, late, Events), late.beforeProjections)
    case Secrets => Newer(PendingAt(failNext, late, Projections), late.beforeSecrets)
    case Outbox => Newer(PendingAt(failNext, late, Secrets), late.beforeOutbox)
  }

  predicate FiresAt(failNext: Option<Stage>, late: Interference, stage: Stage) {
    PendingAt(failNext, late, stage) == Some(stage)
  }

  /** The first check that finds its own stage pending. */
  function Fired(failNext: Option<Stage>, late: Interference): (r: Option<Stage>)
    ensures r == None <==> forall stage :: !FiresAt(failNext, late, stage)
    ensures r.Some? ==> FiresAt(failNext, late, r.value)
                        && forall stage :: Rank(stage) < Rank(r.value) ==> !FiresAt(failNext, late, stage)
  {
    if FiresAt(failNext, late, Events) then Some(Events)
    else if FiresAt(failNext, late, Projections) then Some(Projections)
    else if FiresAt(failNext, late, Secrets) then Some(Secrets)
    else if FiresAt(failNext, late, Outbox) then Some(Outbox)
    else None
  }

  /** Without interference exactly a pending failure fires. */
  lemma CalmFires(failNext: Option<Stage>)
    ensures Fired(failNext, CALM) == failNext
  {
    if failNext.Some? {
      match failNext.value
      case Events =>
      case Projections =>
      case Secrets =>
      case Outbox =>
    }
  }

  /** The state, the pending failure and the answer after one commit. */
  datatype Turn = Turn(state: State, failNext: Option<Stage>, answer: Result<Receipt, StoreError>)

  function CommitTurn(s: State, failNext: Option<Stage>, m: Mutation, late: Interference): Turn {
    if m.key in s.receipts then
      var stored := s.receipts[m.key];
      if stored.operation != m.operation || stored.requestHash != m.requestHash
      then Turn(s, failNext, Err(IdempotencyConflict))
      else Turn(s, failNext, Ok(Receipt(stored.revision, true)))
    else match Fired(failNext, late)
      case Some(stage) => Turn(s, None, Err(Injected(stage)))
      case None => Turn(Committed(s, m), PendingAt(failNext, late, Outbox), Ok(Receipt(Committed(s, m).revision, false)))
  }

  /** The loop over the secret mutations, in order. */
  method ApplySecrets(start: map<string, Bytes>, secrets: seq<SecretMutation>) returns (vault: map<string, Bytes>)
    ensures vault == WithSecrets(start, secrets)
  {
    vault := start;
    for i := 0 to |secrets|
      invariant vault == WithSecrets(start, secrets[..i])
    {
      assert secrets[..i + 1][..i] == secrets[..i];
      match secrets[i]
      case Put(credential, material) => vault := vault[credential := material];
      case Delete(credential) => vault := vault - {credential};
    }
    assert secrets[..|secrets|] == secrets;
  }

  class UnitOfWork {
    var state: State
    var failNext: Option<Stage>

    constructor ()
      ensures state == EMPTY && failNext == None
    {
      state := EMPTY;
      failNext := None;
    }

    method FailNextAt(stage: Stage)
      modifies this`failNext
      ensures failNext == Some(stage)
    {
      failNext := Some(stage);
    }

    method FailIfRequested(stage: Stage) returns (fails: bool)
      modifies this`failNext
      ensures fails <==> old(failNext) == Some(stage)
      ensures failNext == if fails then None else old(failNext)
    {
      fails := failNext == Some(stage);
      if fails {
        failNext := None;
      }
    }

    /** Injections of other threads up to the next check. */
    method Interleave(arrival: Option<Stage>)
      modifies this`failNext
      ensures failNext == Newer(old(failNext), arrival)
    {
      if arrival.Some? {
        FailNextAt(arrival.value);
      }
    }

    /** An injected failure that a check finds rolls everything back and is consumed; a retry or a
        conflict consumes nothing; an injection that comes after its check stays pending. */
    method Commit(m: Mutation, late: Interference) returns (answer: Result<Receipt, StoreError>)
      modifies this
      ensures Turn(state, failNext, answer) == CommitTurn(old(state), old(failNext), m, late)
    {
      if m.key in state.receipts {
        var stored := state.receipts[m.key];
        if stored.operation != m.operation || stored.requestHash != m.requestHash {
          return Err(IdempotencyConflict);
        }
        return Ok(Receipt(stored.revision, true));
      }
      var staged := state.(events := state.events + m.events);
      Interleave(late.beforeEvents);
      var fails := FailIfRequested(Events);
      if fails {
        return Err(Injected(Events));
      }
      staged := staged.(projections := staged.projections + m.projections);
      Interleave(late.beforeProjections);
      fails := FailIfRequested(Projections);
      if fails {
        return Err(Injected(Projections));
      }
      var vault := ApplySecrets(staged.secrets, m.secrets);
      staged := staged.(secrets := vault);
      Interleave(late.beforeSecrets);
      fails := FailIfRequested(Secrets);
      if fails {
        return Err(Injected(Secrets));
      }
      staged := staged.(outbox := staged.outbox + CaptureAll(m.outbox));
      Interleave(late.beforeOutbox);
      fails := FailIfRequested(Outbox);
      if fails {
        return Err(Injected(Outbox));
      }
      staged := staged.(revision := SaturatingAdd(staged.revision, |m.events|));
      staged := staged.(receipts := staged.receipts[m.key := StoredReceipt(m.operation, m.requestHash, staged.revision)]);
      state := staged;
      return Ok(Receipt(staged.revision, false));
    }
  }

  // ---------------------------------------------------------------- every run

  datatype Op = Inject(stage: Stage) | Submit(mutation: Mutation, late: Interference)

  datatype Store = Store(state: State, failNext: Option<Stage>)

  function After(ops: seq<Op>): Store {
    if ops == [] then Store(EMPTY, None) else
      var s := After(ops[..|ops| - 1]);
      match ops[|ops| - 1]
      case Inject(stage) => s.(failNext := Some(stage))
      case Submit(m, late) => var t := CommitTurn(s.state, s.failNext, m, late); Store(t.state, t.failNext)
  }

  /** The answer to the submission at an index of the run. */
  function AnswerAt(ops: seq<Op>, i: nat): Result<Receipt, StoreError>
    requires i < |ops| && ops[i].Submit?
  {
    var s := After(ops[..i]);
    CommitTurn(s.state, s.failNext, ops[i].mutation, ops[i].late).answer
  }

  predicate FreshlyCommitted(answer: Result<Receipt, StoreError>) {
    answer.Ok? && !answer.value.replayed
  }

  /** The mutations that were answered as freshly committed, in order. */
  function Successes(ops: seq<Op>): seq<Mutation> {
    if ops == [] then [] else
      var n := |ops| - 1;
      if ops[n].Submit? && FreshlyCommitted(AnswerAt(ops, n)) then Successes(ops[..n]) + [ops[n].mutation]
      else Successes(ops[..n])
  }

  // ---------------------------------------------------------------- the reference: plain replay

  function EventLog(ms: seq<Mutation>): seq<string> {
    if ms == [] then [] else EventLog(ms[..|ms| - 1]) + ms[|ms| - 1].events
  }

  function ProjectionLog(ms: seq<Mutation>): seq<string> {
    if ms == [] then [] else ProjectionLog(ms[..|ms| - 1]) + ms[|ms| - 1].projections
  }

  function Vault(ms: seq<Mutation>): map<string, Bytes> {
    if ms == [] then map[] else WithSecrets(Vault(ms[..|ms| - 1]), ms[|ms| - 1].secrets)
  }

  function OutboxLog(ms: seq<Mutation>): seq<CapturedIntent> {
    if ms == [] then [] else OutboxLog(ms[..|ms| - 1]) + CaptureAll(ms[|ms| - 1].outbox)
  }

  predicate DistinctKeys(ms: seq<Mutation>) {
    forall i, j :: 0 <= i < j < |ms| ==> ms[i].key != ms[j].key
  }

  /** The length of the event log right after mutation i. */
  function LengthAfter(ms: seq<Mutation>, i: nat): nat
    requires i < |ms|
  {
    |EventLog(ms[..i + 1])|
  }

  /** The receipt of mutation i records the length of the log right after it. */
  predicate ReceiptOf(receipts: map<string, StoredReceipt>, ms: seq<Mutation>, i: nat)
    requires i < |ms|
  {
    && ms[i].key in receipts
    && receipts[ms[i].key] == StoredReceipt(ms[i].operation, ms[i].requestHash, Min(LengthAfter(ms, i), U64_MAX))
  }

  predicate ReceiptsOf(receipts: map<string, StoredReceipt>, ms: seq<Mutation>) {
    && (forall k :: k in receipts ==> exists i :: 0 <= i < |ms| && ms[i].key == k)
    && (forall i :: 0 <= i < |ms| ==> ReceiptOf(receipts, ms, i))
  }

  predicate IsReplayOf(s: State, ms: seq<Mutation>) {
    && s.events == EventLog(ms)
    && s.projections == ProjectionLog(ms)
    && s.secrets == Vault(ms)
    && s.outbox == OutboxLog(ms)
    && s.revision == Min(|EventLog(ms)|, U64_MAX)
    && ReceiptsOf(s.receipts, ms)
  }

  lemma ReceiptsOfOneMore(s: State, ms: seq<Mutation>, m: Mutation)
    requires ReceiptsOf(s.receipts, ms) && s.revision == Min(|EventLog(ms)|, U64_MAX) && m.key !in s.receipts
    ensures ReceiptsOf(Committed(s, m).receipts, ms + [m])
  {
    var all, t := ms + [m], Committed(s, m).receipts;
    assert all[..|ms|] == ms && all[..|all|] == all;
    forall i | 0 <= i < |all| ensures ReceiptOf(t, all, i) {
      if i < |ms| {
        assert ReceiptOf(s.receipts, ms, i);
        assert all[..i + 1] == ms[..i + 1];
      }
    }
    forall k | k in t ensures exists i :: 0 <= i < |all| && all[i].key == k {
      if k == m.key {
        assert all[|ms|].key == k;
      } else {
        var i :| 0 <= i < |ms| && ms[i].key == k;
        assert all[i].key == k;
      }
    }
  }

  lemma LogsOfOneMore(ms: seq<Mutation>, m: Mutation)
    ensures EventLog(ms + [m]) == EventLog(ms) + m.events
    ensures ProjectionLog(ms + [m]) == ProjectionLog(ms) + m.projections
    ensures Vault(ms + [m]) == WithSecrets(Vault(ms), m.secrets)
    ensures OutboxLog(ms + [m]) == OutboxLog(ms) + CaptureAll(m.outbox)
  {
    assert (ms + [m])[..|ms|] == ms;
  }

  lemma KeysOfOneMore(s: State, ms: seq<Mutation>, m: Mutation)
    requires ReceiptsOf(s.receipts, ms) && DistinctKeys(ms) && m.key !in s.receipts
    ensures DistinctKeys(ms + [m])
  {
    forall i | 0 <= i < |ms| ensures ms[i].key != m.key {
      assert ReceiptOf(s.receipts, ms, i);
    }
  }

  lemma CommittedReplaysOneMore(s: State, ms: seq<Mutation>, m: Mutation)
    requires IsReplayOf(s, ms) && DistinctKeys(ms) && m.key !in s.receipts
    ensures IsReplayOf(Committed(s, m), ms + [m]) && DistinctKeys(ms + [m])
  {
    LogsOfOneMore(ms, m);
    ReceiptsOfOneMore(s, ms, m);
    KeysOfOneMore(s, ms, m);
  }

  /** For every run of submissions, retries, conflicts and injected failures, the state is the plain
      replay of the freshly committed mutations in order, each key at most once: every log is
      their concatenation, and the revision is the length of the event log up to saturation. */
  lemma {:induction false} StateIsReplayOfSuccesses(ops: seq<Op>)
    ensures IsReplayOf(After(ops).state, Successes(ops))
    ensures DistinctKeys(Successes(ops))
  {
    if ops != [] {
      var n := |ops| - 1;
      StateIsReplayOfSuccesses(ops[..n]);
      if ops[n].Submit? {
        TurnKeepsReplay(After(ops[..n]).state, After(ops[..n]).failNext, ops[n].mutation, ops[n].late, Successes(ops[..n]));
      }
    }
  }

  lemma TurnKeepsReplay(s: State, failNext: Option<Stage>, m: Mutation, late: Interference, ms: seq<Mutation>)
    requires IsReplayOf(s, ms) && DistinctKeys(ms)
    ensures var turn := CommitTurn(s, failNext, m, late);
            var all := if FreshlyCommitted(turn.answer) then ms + [m] else ms;
            IsReplayOf(turn.state, all) && DistinctKeys(all)
  {
    if FreshlyCommitted(CommitTurn(s, failNext, m, late).answer) {
      CommittedReplaysOneMore(s, ms, m);
    }
  }

  lemma {:induction false} EventLogGrows(ms: seq<Mutation>, n: nat)
    requires n <= |ms|
    ensures |EventLog(ms[..n])| <= |EventLog(ms)|
    ensures EventLog(ms)[..|EventLog(ms[..n])|] == EventLog(ms[..n])
  {
    if n < |ms| {
      EventLogGrows(ms[..|ms| - 1], n);
      assert ms[..|ms| - 1][..n] == ms[..n];
    } else {
      assert ms[..n] == ms;
    }
  }

  /** Below saturation, the revision of a receipt marks the exact prefix of the event log that was
      there at its commit. */
  lemma ReceiptMarksItsPrefix(ops: seq<Op>, i: nat)
    requires i < |Successes(ops)|
    requires |After(ops).state.events| <= U64_MAX
    ensures var s, ms := After(ops).state, Successes(ops);
            && ms[i].key in s.receipts
            && s.receipts[ms[i].key].revision <= |s.events|
            && s.events[..s.receipts[ms[i].key].revision] == EventLog(ms[..i + 1])
  {
    StateIsReplayOfSuccesses(ops);
    EventLogGrows(Successes(ops), i + 1);
    assert ReceiptOf(After(ops).state.receipts, Successes(ops), i);
  }

  /** Later commits that carry events have larger revisions. */
  lemma RevisionsIncrease(ops: seq<Op>, i: nat, j: nat)
    requires i < j < |Successes(ops)| && Successes(ops)[j].events != []
    requires |After(ops).state.events| <= U64_MAX
    ensures var s, ms := After(ops).state, Successes(ops);
            && ms[i].key in s.receipts && ms[j].key in s.receipts
            && s.receipts[ms[i].key].revision < s.receipts[ms[j].key].revision
  {
    RevisionIsLength(After(ops).state, Successes(ops), ops, i);
    RevisionIsLength(After(ops).state, Successes(ops), ops, j);
    LengthsIncrease(Successes(ops), i, j);
  }

  lemma RevisionIsLength(s: State, ms: seq<Mutation>, ops: seq<Op>, i: nat)
    requires s == After(ops).state && ms == Successes(ops) && i < |ms| && |s.events| <= U64_MAX
    ensures ms[i].key in s.receipts && s.receipts[ms[i].key].revision == LengthAfter(ms, i)
  {
    StateIsReplayOfSuccesses(ops);
    EventLogGrows(ms, i + 1);
    assert ReceiptOf(s.receipts, ms, i);
  }

  lemma LengthsIncrease(ms: seq<Mutation>, i: nat, j: nat)
    requires i < j < |ms| && ms[j].events != []
    ensures LengthAfter(ms, i) < LengthAfter(ms, j)
  {
    EventLogGrows(ms[..j], i + 1);
    assert ms[..j][..i + 1] == ms[..i + 1];
    assert ms[..j + 1][..j] == ms[..j];
  }

  /** A stored receipt never changes. */
  lemma {:induction false} ReceiptsAreKept(ops: seq<Op>, n: nat, key: string)
    requires n <= |ops| && key in After(ops[..n]).state.receipts
    ensures key in After(ops).state.receipts
    ensures After(ops).state.receipts[key] == After(ops[..n]).state.receipts[key]
  {
    if n < |ops| {
      var before := ops[..|ops| - 1];
      assert before[..n] == ops[..n];
      ReceiptsAreKept(before, n, key);
    } else {
      assert ops[..n] == ops;
    }
  }

  /** Once a key has committed, every later submission of it, anywhere in the run, is answered with
      the same revision when operation and request agree and with a conflict otherwise. */
  lemma RetryGetsTheSameRevision(ops: seq<Op>, i: nat, j: nat)
    requires i < j < |ops| && ops[i].Submit? && ops[j].Submit?
    requires ops[i].mutation.key == ops[j].mutation.key
    requires FreshlyCommitted(AnswerAt(ops, i))
    ensures AnswerAt(ops, j) ==
            if ops[i].mutation.operation == ops[j].mutation.operation
               && ops[i].mutation.requestHash == ops[j].mutation.requestHash
            then Ok(Receipt(AnswerAt(ops, i).value.revision, true))
            else Err(IdempotencyConflict)
  {
    var m := ops[i].mutation;
    assert ops[..i + 1][..i] == ops[..i];
    assert ops[..j][..i + 1] == ops[..i + 1];
    ReceiptsAreKept(ops[..j], i + 1, m.key);
  }

  /** A submission of a key that has not committed succeeds exactly when no check finds its own stage
      pending; otherwise the state is untouched and the failure is used up. */
  lemma FreshKeyOutcome(ops: seq<Op>, m: Mutation, late: Interference)
    requires forall s :: s in Successes(ops) ==> s.key != m.key
    ensures var all, pending := ops + [Submit(m, late)], After(ops).failNext;
            if forall stage :: !FiresAt(pending, late, stage)
            then Successes(all) == Successes(ops) + [m] && After(all).failNext == PendingAt(pending, late, Outbox)
            else After(all) == Store(After(ops).state, None) && Successes(all) == Successes(ops)
  {
    var all := ops + [Submit(m, late)];
    assert all[..|ops|] == ops;
    StateIsReplayOfSuccesses(ops);
    assert m.key !in After(ops).state.receipts;
  }

  /** Rollback leaves nothing behind: after an injected failure the same mutation, submitted again without
      further injections, commits as if the failed attempt had not been made. */
  lemma FailedCommitCanBeRetried(ops: seq<Op>, m: Mutation, late: Interference)
    requires forall s :: s in Successes(ops) ==> s.key != m.key
    requires Fired(After(ops).failNext, late).Some?
    ensures var again := ops + [Submit(m, late)] + [Submit(m, CALM)];
            && Successes(again) == Successes(ops) + [m]
            && After(again) == Store(Committed(After(ops).state, m), None)
  {
    var failed := ops + [Submit(m, late)];
    FreshKeyOutcome(ops, m, late);
    FreshKeyOutcome(failed, m, CALM);
    CalmFires(None);
    assert (failed + [Submit(m, CALM)])[..|failed|] == failed;
    StateIsReplayOfSuccesses(ops);
    assert m.key !in After(ops).state.receipts;
  }

  // ---------------------------------------------------------------- what the vault and the outbox hold

  function CredentialOf(secret: SecretMutation): string {
    match secret
    case Put(credential, _) => credential
    case Delete(credential) => credential
  }

  /** The secret mutations of all commits, in order. */
  function AllSecrets(ms: seq<Mutation>): seq<SecretMutation> {
    if ms == [] then [] else AllSecrets(ms[..|ms| - 1]) + ms[|ms| - 1].secrets
  }

  /** The mutation at this index is the last one of its credential. */
  predicate IsLastOf(secrets: seq<SecretMutation>, credential: string, i: nat) {
    && i < |secrets| && CredentialOf(secrets[i]) == credential
    && forall j :: i < j < |secrets| ==> CredentialOf(secrets[j]) != credential
  }

  /** The credential is in the vault exactly when its last mutation put it there, with that material. */
  ghost predicate VaultSays(vault: map<string, Bytes>, secrets: seq<SecretMutation>, credential: string) {
    && (credential in vault <==> exists i: nat :: IsLastOf(secrets, credential, i) && secrets[i].Put?)
    && (forall i: nat :: IsLastOf(secrets, credential, i) && secrets[i].Put? ==>
          credential in vault && vault[credential] == secrets[i].material)
  }

  lemma LastOfOneMore(secrets: seq<SecretMutation>, secret: SecretMutation, credential: string, i: nat)
    ensures IsLastOf(secrets + [secret], credential, i) <==>
            if CredentialOf(secret) == credential then i == |secrets| else IsLastOf(secrets, credential, i)
  {
    var all := secrets + [secret];
    if IsLastOf(all, credential, i) && i < |secrets| {
      assert all[|secrets|] == secret;
    }
    if i < |secrets| {
      assert forall j :: i < j < |secrets| ==> all[j] == secrets[j];
    }
  }

  lemma SecretKeepsVault(vault: map<string, Bytes>, secrets: seq<SecretMutation>, secret: SecretMutation, credential: string)
    requires VaultSays(vault, secrets, credential)
    ensures VaultSays(WithSecret(vault, secret), secrets + [secret], credential)
  {
    var all := secrets + [secret];
    forall i: nat ensures IsLastOf(all, credential, i) <==>
                          if CredentialOf(secret) == credential then i == |secrets| else IsLastOf(secrets, credential, i) {
      LastOfOneMore(secrets, secret, credential, i);
    }
    if CredentialOf(secret) == credential {
      assert IsLastOf(all, credential, |secrets|) && all[|secrets|] == secret;
    } else {
      forall i: nat | IsLastOf(secrets, credential, i) ensures all[i] == secrets[i] && IsLastOf(all, credential, i) {
      }
      forall i: nat | IsLastOf(all, credential, i) ensures i < |secrets| && all[i] == secrets[i] && IsLastOf(secrets, credential, i) {
      }
    }
  }

  lemma {:induction false} SecretsKeepVault(vault: map<string, Bytes>, before: seq<SecretMutation>, secrets: seq<SecretMutation>, credential: string)
    requires VaultSays(vault, before, credential)
    ensures VaultSays(WithSecrets(vault, secrets), before + secrets, credential)
  {
    if secrets == [] {
      assert before + secrets == before;
    } else {
      var n := |secrets| - 1;
      SecretsKeepVault(vault, before, secrets[..n], credential);
      SecretKeepsVault(WithSecrets(vault, secrets[..n]), before + secrets[..n], secrets[n], credential);
      assert before + secrets[..n] + [secrets[n]] == before + secrets;
    }
  }

  lemma {:induction false} VaultOf(ms: seq<Mutation>, credential: string)
    ensures VaultSays(Vault(ms), AllSecrets(ms), credential)
  {
    if ms != [] {
      var n := |ms| - 1;
      VaultOf(ms[..n], credential);
      SecretsKeepVault(Vault(ms[..n]), AllSecrets(ms[..n]), ms[n].secrets, credential);
    }
  }

  /** After any run a credential is in the vault exactly when the last mutation of it among the fresh commits
      was a `Put`, and then with that material. */
  lemma VaultHoldsLastPut(ops: seq<Op>, credential: string)
    ensures VaultSays(After(ops).state.secrets, AllSecrets(Successes(ops)), credential)
  {
    StateIsReplayOfSuccesses(ops);
    VaultOf(Successes(ops), credential);
  }

  /** The outbox intents of all commits, in order. */
  function AllIntents(ms: seq<Mutation>): seq<OutboxIntent> {
    if ms == [] then [] else AllIntents(ms[..|ms| - 1]) + ms[|ms| - 1].outbox
  }

  /** The record of an intent: of a mail its kind and correlation id, of a relationship all of it. */
  predicate Records(captured: CapturedIntent, intent: OutboxIntent) {
    && (intent.Mail? ==> captured.CapturedMail? && captured.kind == intent.kind && captured.correlationId == intent.correlationId)
    && (intent.Relationship? ==> captured.CapturedRelationship? && captured.tuple == intent.tuple)
  }

  lemma {:induction false} OutboxOf(ms: seq<Mutation>)
    ensures |OutboxLog(ms)| == |AllIntents(ms)|
    ensures forall i :: 0 <= i < |AllIntents(ms)| ==> Records(OutboxLog(ms)[i], AllIntents(ms)[i])
  {
    if ms != [] {
      OutboxOf(ms[..|ms| - 1]);
    }
  }

  /** After any run the outbox records the intents of the fresh commits, one for one and in order. */
  lemma OutboxRecordsIntents(ops: seq<Op>)
    ensures var outbox, intents := After(ops).state.outbox, AllIntents(Successes(ops));
            |outbox| == |intents| && forall i :: 0 <= i < |intents| ==> Records(outbox[i], intents[i])
  {
    StateIsReplayOfSuccesses(ops);
    OutboxOf(Successes(ops));
  }
}
