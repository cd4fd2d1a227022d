/**
 The transaction manager: one attempt, and the retry loop around it. Everything that can go either way (begin,
 the caller's function, commit, rollback, cancellation, the random draw) is given by the attempt's fate.
 */
module TxManager {
  import opened Redis
  import B = Backoff

  datatype Code = Serialization | Deadlock | Connection | Timeout | OtherCode

  /** A Go error chain: the package's own coded errors, and foreign errors with or without a cause. */
  datatype Error =
    | Plain
    | Wrapped(inner: Error)
    | Coded(code: Code, cause: Option<Error>)

  /** errors.As: the code of the outermost coded error of the chain. */
  function FindCode(e: Error): Option<Code> {
    match e
    case Plain => None
    case Wrapped(inner) => FindCode(inner)
    case Coded(code, _) => Some(code)
  }

  predicate IsRetryable(e: Error) {
    FindCode(e) == Some(Serialization) || FindCode(e) == Some(Deadlock)
  }

  /** What the caller's function writes in one attempt. */
  type Batch = string

  datatype FnEnd = Returns | Fails(e: Error) | Panics

  /** A failed commit may or may not have taken effect on the server. */
  datatype CommitEnd = Commits | CommitFails(applied: bool, reason: Error)

  datatype Fate = Fate(beginFails: Option<Error>, batch: Batch, fn: FnEnd, rollbackFails: bool, commit: CommitEnd,
                       cancelled: bool, rnd: nat)

  datatype Outcome = Nil | Failed(e: Error) | Panic

  /** `Cancelled` is a wait cut short; it lasts at most the delay it records. */
  datatype Action = BeginFailed | Began | FnRan | CommitIssued | RollbackIssued | Waited(delay: int) | Cancelled(delay: int)

  /** What a call did: its result, its actions in order, and the batches that reached the database. */
  datatype Report = Report(outcome: Outcome, actions: seq<Action>, writes: seq<Batch>, attempts: nat)

  // ---------- One attempt ----------

  /** pgxPool.BeginTx and pgxTx.Commit re-code every error as a connection error. */
  function Recode(reason: Error): Error {
    Coded(Connection, Some(reason))
  }

  function Attempt(f: Fate): Report {
    if f.beginFails.Some? then Report(Failed(Recode(f.beginFails.value)), [BeginFailed], [], 1)
    else match f.fn
      case Panics => Report(Panic, [Began, FnRan, RollbackIssued], [], 1)
      case Fails(e) => Report(Failed(e), [Began, FnRan, RollbackIssued], [], 1)
      case Returns =>
        match f.commit
        case Commits => Report(Nil, [Began, FnRan, CommitIssued], [f.batch], 1)
        case CommitFails(applied, reason) =>
          Report(Failed(Recode(reason)), [Began, FnRan, CommitIssued], if applied then [f.batch] else [], 1)
  }

  // ---------- The retry loop ----------

  function Before(r: Report, actions: seq<Action>, writes: seq<Batch>, attempts: nat): Report {
    Report(r.outcome, actions + r.actions, writes + r.writes, attempts + r.attempts)
  }

  function Pause(c: B.Config, i: nat, f: Fate): seq<Action> {
    if i == 0 then [] else [Waited(B.Delay(c, i, f.rnd))]
  }

  function ExecuteFrom(c: B.Config, fates: nat -> Fate, i: nat, last: Option<Error>): Report
    decreases c.maxRetries + 1 - i
  {
    var f := fates(i);
    if i > c.maxRetries then Report(Failed(Coded(Serialization, last)), [], [], 0)
    else if i > 0 && f.cancelled then Report(Failed(Coded(Timeout, Some(Plain))), [Cancelled(B.Delay(c, i, f.rnd))], [], 0)
    else
      var a := Attempt(f);
      if a.outcome.Failed? && IsRetryable(a.outcome.e) then
        Before(ExecuteFrom(c, fates, i + 1, Some(a.outcome.e)), Pause(c, i, f) + a.actions, a.writes, 1)
      else Before(a, Pause(c, i, f), [], 0)
  }

  function Execute(c: B.Config, fates: nat -> Fate): Report {
    ExecuteFrom(c, fates, 0, None)
  }

  lemma Regroup(a: seq<Action>, b: seq<Action>, c: seq<Action>, d: seq<Action>)
    ensures a + (b + c + d) == a + b + c + d && a + (b + c) == a + b + c
  {
  }

  lemma RunOut(c: B.Config, fates: nat -> Fate, i: nat, last: Option<Error>)
    requires i > c.maxRetries
    ensures ExecuteFrom(c, fates, i, last) == Report(Failed(Coded(Serialization, last)), [], [], 0)
  {
  }

  /** One turn of the loop. */
  lemma Turn(c: B.Config, fates: nat -> Fate, i: nat, last: Option<Error>)
    requires i <= c.maxRetries
    ensures var f, r := fates(i), ExecuteFrom(c, fates, i, last);
            var a, pause := Attempt(f), Pause(c, i, f);
            if i > 0 && f.cancelled then r == Report(Failed(Coded(Timeout, Some(Plain))), [Cancelled(B.Delay(c, i, f.rnd))], [], 0)
            else if a.outcome.Failed? && IsRetryable(a.outcome.e) then
              var rest := ExecuteFrom(c, fates, i + 1, Some(a.outcome.e));
              && r.outcome == rest.outcome && r.writes == a.writes + rest.writes && r.attempts == 1 + rest.attempts
              && r.actions == pause + a.actions + rest.actions
            else r.outcome == a.outcome && r.writes == a.writes && r.attempts == 1 && r.actions == pause + a.actions
  {
  }

  // ---------- The manager as an object ----------

  /** `open` holds the transactions in progress, the innermost last; each has a connection of its own. */
  class Database {
    var committed: seq<Batch>
    var open: seq<Batch>
    var actions: seq<Action>

    constructor ()
      ensures committed == [] && open == [] && actions == []
    {
      committed, open, actions := [], [], [];
    }

    method BeginTx(fails: Option<Error>) returns (err: Option<Error>)
      modifies this
      ensures committed == old(committed)
      ensures open == old(open) + if fails.Some? then [] else [""]
      ensures actions == old(actions) + [if fails.Some? then BeginFailed else Began]
      ensures err == if fails.Some? then Some(Recode(fails.value)) else None
    {
      if fails.Some? {
        actions := actions + [BeginFailed];
        return Some(Recode(fails.value));
      }
      open, actions := open + [""], actions + [Began];
      return None;
    }

    /** The caller's function, or a part of it, writes in the innermost transaction. */
    method Write(batch: Batch)
      requires open != []
      modifies this
      ensures open == old(open)[..|old(open)| - 1] + [old(open)[|old(open)| - 1] + batch]
      ensures actions == old(actions) + [FnRan] && committed == old(committed)
    {
      open, actions := open[..|open| - 1] + [open[|open| - 1] + batch], actions + [FnRan];
    }

    method Commit(end: CommitEnd) returns (err: Option<Error>)
      requires open != []
      modifies this
      ensures open == old(open)[..|old(open)| - 1] && actions == old(actions) + [CommitIssued]
      ensures committed == old(committed) + if end.Commits? || end.applied then [old(open)[|old(open)| - 1]] else []
      ensures err == if end.Commits? then None else Some(Recode(end.reason))
    {
      if end.Commits? || end.applied {
        committed := committed + [open[|open| - 1]];
      }
      open, actions := open[..|open| - 1], actions + [CommitIssued];
      return if end.Commits? then None else Some(Recode(end.reason));
    }

    /** Even a failed rollback leaves nothing behind: the server drops an unfinished transaction. */
    method Rollback(fails: bool) returns (err: Option<Error>)
      requires open != []
      modifies this
      ensures open == old(open)[..|old(open)| - 1] && actions == old(actions) + [RollbackIssued]
      ensures committed == old(committed)
      ensures err == if fails then Some(Recode(Plain)) else None
    {
      open, actions := open[..|open| - 1], actions + [RollbackIssued];
      return if fails then Some(Recode(Plain)) else None;
    }
  }

  class Manager {
    const db: Database
    const config: B.Config

    constructor (db: Database, config: B.Config)
      ensures this.db == db && this.config == config
    {
      this.db, this.config := db, config;
    }

    method ExecuteTx(f: Fate) returns (outcome: Outcome)
      modifies db
      ensures outcome == Attempt(f).outcome
      ensures db.committed == old(db.committed) + Attempt(f).writes
      ensures db.actions == old(db.actions) + Attempt(f).actions
      ensures db.open == old(db.open)
    {
      var err := db.BeginTx(f.beginFails);
      if err.Some? {
        return Failed(err.value);
      }
      db.Write(f.batch);
      assert "" + f.batch == f.batch;
      outcome := EndTx(f);
    }

    /** What follows the call of fn: rollback on a panic or an error, commit otherwise. */
    method EndTx(f: Fate) returns (outcome: Outcome)
      requires db.open != []
      modifies db
      ensures db.open == old(db.open)[..|old(db.open)| - 1]
      ensures db.committed == old(db.committed) + if Applied(f) then [old(db.open)[|old(db.open)| - 1]] else []
      ensures db.actions == old(db.actions) + [if f.fn.Returns? then CommitIssued else RollbackIssued]
      ensures outcome == if f.fn.Returns? && f.commit.CommitFails? then Failed(Recode(f.commit.reason)) else FnOutcome(f.fn)
    {
      if f.fn.Panics? {
        var _ := db.Rollback(f.rollbackFails);
        return Panic;
      }
      if f.fn.Fails? {
        var _ := db.Rollback(f.rollbackFails);
        return Failed(f.fn.e);
      }
      var err := db.Commit(f.commit);
      if err.Some? {
        return Failed(err.value);
      }
      return Nil;
    }

    method ExecuteWithRetry(fates: nat -> Fate) returns (outcome: Outcome)
      modifies db
      ensures outcome == Execute(config, fates).outcome
      ensures db.committed == old(db.committed) + Execute(config, fates).writes
      ensures db.actions == old(db.actions) + Execute(config, fates).actions
      ensures db.open == old(db.open)
    {
      hide ExecuteFrom, Attempt, IsRetryable, B.Delay;
      var last: Option<Error> := None;
      var attempt := 0;
      ghost var report := Execute(config, fates);
      while attempt <= config.maxRetries
        invariant db.open == old(db.open) && db.committed == old(db.committed)
        invariant attempt == 0 || attempt <= config.maxRetries + 1
        invariant var rest := ExecuteFrom(config, fates, attempt, last);
                  && report.outcome == rest.outcome && report.writes == rest.writes
                  && old(db.actions) + report.actions == db.actions + rest.actions
      {
        var f := fates(attempt);
        ghost var before := db.actions;
        Turn(config, fates, attempt, last);
        RetriedIff(f);
        if attempt > 0 {
          var delay := B.CalculateRetryDelay(config, attempt, f.rnd);
          if f.cancelled {
            db.actions := db.actions + [Cancelled(delay)];
            return Failed(Coded(Timeout, Some(Plain)));
          }
          db.actions := db.actions + [Waited(delay)];
        }
        assert db.actions == before + Pause(config, attempt, f);
        var r := ExecuteTx(f);
        Regroup(before, Pause(config, attempt, f), Attempt(f).actions,
                if r.Failed? && IsRetryable(r.e) then ExecuteFrom(config, fates, attempt + 1, Some(r.e)).actions else []);
        if r.Nil? || r.Panic? {
          return r;
        }
        last := Some(r.e);
        if !IsRetryable(r.e) {
          return r;
        }
        attempt := attempt + 1;
      }
      RunOut(config, fates, attempt, last);
      return Failed(Coded(Serialization, last));
    }

    /**
     `inContext` is whether the given context carries a transaction, which is then the innermost one: fn runs in it
     and its outcome is passed on, the caller ends it. Any other context starts a transaction of its own, also
     while another one is open.
     */
    method WithTxOptions(inContext: bool, fates: nat -> Fate) returns (outcome: Outcome)
      requires inContext ==> db.open != []
      modifies db
      ensures inContext ==>
                && db.committed == old(db.committed)
                && db.open == old(db.open)[..|old(db.open)| - 1] + [old(db.open)[|old(db.open)| - 1] + fates(0).batch]
                && db.actions == old(db.actions) + [FnRan]
                && outcome == FnOutcome(fates(0).fn)
      ensures !inContext ==>
                && outcome == Execute(config, fates).outcome
                && db.committed == old(db.committed) + Execute(config, fates).writes
                && db.actions == old(db.actions) + Execute(config, fates).actions
                && db.open == old(db.open)
    {
      if inContext {
        var f := fates(0);
        db.Write(f.batch);
        return FnOutcome(f.fn);
      }
      outcome := ExecuteWithRetry(fates);
    }

    /**
     One attempt whose fn calls WithTx again. The attempt hands fn the transaction but not a context that carries
     it, so on the caller's own context (`inContext` false) the inner call is a transaction of its own: what it
     commits stays, whatever becomes of the outer attempt. On a context that fn has given the transaction, it is
     part of the outer one.
     */
    method ExecuteNested(f: Fate, inner: nat -> Fate, inContext: bool) returns (outcome: Outcome)
      modifies db
      ensures db.open == old(db.open)
      ensures db.committed == old(db.committed) + NestedWrites(config, f, inner, inContext)
      ensures outcome == Attempt(f).outcome
    {
      var err := db.BeginTx(f.beginFails);
      if err.Some? {
        return Failed(err.value);
      }
      db.Write(f.batch);
      assert "" + f.batch == f.batch;
      var _ := WithTxOptions(inContext, inner);
      outcome := EndTx(f);
    }
  }

  function FnOutcome(fn: FnEnd): Outcome {
    match fn
    case Returns => Nil
    case Fails(e) => Failed(e)
    case Panics => Panic
  }

  /** Whether the open transaction reaches the database. */
  predicate Applied(f: Fate) {
    f.fn.Returns? && (f.commit.Commits? || f.commit.applied)
  }

  function NestedWrites(c: B.Config, f: Fate, inner: nat -> Fate, inContext: bool): seq<Batch> {
    if f.beginFails.Some? then []
    else if inContext then if Applied(f) then [f.batch + inner(0).batch] else []
    else Execute(c, inner).writes + if Applied(f) then [f.batch] else []
  }

  // ---------- Results ----------

  /** An attempt is followed by another only if begin worked and the caller's function itself failed with a retryable error. */
  predicate Retried(f: Fate) {
    f.beginFails.None? && f.fn.Fails? && IsRetryable(f.fn.e)
  }

  lemma RetriedIff(f: Fate)
    ensures Retried(f) <==> Attempt(f).outcome.Failed? && IsRetryable(Attempt(f).outcome.e)
    ensures Retried(f) ==> Attempt(f).outcome == Failed(f.fn.e) && Attempt(f).writes == [] && CommitIssued !in Attempt(f).actions
  {
  }

  ghost predicate CommitOnlyLast(actions: seq<Action>) {
    forall k | 0 <= k < |actions| && actions[k].CommitIssued? :: k == |actions| - 1
  }

  /** The attempt that a report ends with, when it ran any. */
  function LastFate(fates: nat -> Fate, r: Report, i: nat): Fate {
    fates(if r.attempts > 0 then i + r.attempts - 1 else i)
  }

  /** What a report says about the database. */
  ghost predicate AppliedOnce(fates: nat -> Fate, r: Report, i: nat) {
    var f := LastFate(fates, r, i);
    && CommitOnlyLast(r.actions)
    && (r.outcome.Nil? ==> r.attempts > 0 && r.writes == [f.batch] && CommitIssued in r.actions)
    && (CommitIssued !in r.actions ==> r.writes == [])
    && (CommitIssued in r.actions ==>
          && r.attempts > 0 && f.beginFails.None? && f.fn.Returns?
          && match f.commit
             case Commits => r.outcome.Nil?
             case CommitFails(applied, reason) =>
               r.outcome == Failed(Recode(reason)) && r.writes == if applied then [f.batch] else [])
    && (r.outcome.Panic? ==> r.attempts > 0 && f.fn.Panics? && r.writes == [])
  }

  lemma {:induction false} FromIsAppliedOnce(c: B.Config, fates: nat -> Fate, i: nat, last: Option<Error>)
    ensures AppliedOnce(fates, ExecuteFrom(c, fates, i, last), i)
    ensures ExecuteFrom(c, fates, i, last).attempts <= if i > c.maxRetries then 0 else c.maxRetries + 1 - i
    ensures var n := ExecuteFrom(c, fates, i, last).attempts;
            forall k: nat | i <= k < i + n - 1 :: Retried(fates(k))
    decreases c.maxRetries + 1 - i
  {
    hide ExecuteFrom, Attempt, AppliedOnce;
    if i > c.maxRetries {
      RunOut(c, fates, i, last);
      RunOutIsAppliedOnce(fates, i, last);
    } else {
      var f, r := fates(i), ExecuteFrom(c, fates, i, last);
      Turn(c, fates, i, last);
      RetriedIff(f);
      if i > 0 && f.cancelled {
        CancelIsAppliedOnce(fates, i, B.Delay(c, i, f.rnd));
      } else if Retried(f) {
        var rest := ExecuteFrom(c, fates, i + 1, Some(f.fn.e));
        assert [] + rest.writes == rest.writes;
        FromIsAppliedOnce(c, fates, i + 1, Some(f.fn.e));
        LaterIsAppliedOnce(fates, rest, i, Pause(c, i, f) + Attempt(f).actions, r);
      } else {
        AttemptIsAppliedOnce(fates, i, Pause(c, i, f), r);
      }
    }
  }

  lemma CancelIsAppliedOnce(fates: nat -> Fate, i: nat, delay: int)
    ensures AppliedOnce(fates, Report(Failed(Coded(Timeout, Some(Plain))), [Cancelled(delay)], [], 0), i)
  {
  }

  lemma RunOutIsAppliedOnce(fates: nat -> Fate, i: nat, last: Option<Error>)
    ensures AppliedOnce(fates, Report(Failed(Coded(Serialization, last)), [], [], 0), i)
  {
  }

  lemma AttemptIsAppliedOnce(fates: nat -> Fate, i: nat, pause: seq<Action>, r: Report)
    requires forall k | 0 <= k < |pause| :: pause[k].Waited?
    requires var a := Attempt(fates(i)); r == Report(a.outcome, pause + a.actions, a.writes, 1)
    ensures AppliedOnce(fates, r, i)
  {
    var a := Attempt(fates(i));
    assert CommitIssued in r.actions <==> CommitIssued in a.actions;
  }

  lemma LaterIsAppliedOnce(fates: nat -> Fate, rest: Report, i: nat, first: seq<Action>, r: Report)
    requires AppliedOnce(fates, rest, i + 1) && CommitIssued !in first
    requires r == Report(rest.outcome, first + rest.actions, rest.writes, 1 + rest.attempts)
    ensures AppliedOnce(fates, r, i)
  {
  }

  /**
   No double application: nothing happens after a Commit has been issued; nil means that exactly the batch of
   the last attempt was written; without a Commit nothing was written; an error from Commit leaves the batch
   written or not, as the server decided. At most MaxRetries + 1 attempts run, and every attempt but the last
   failed in the caller's function with a retryable error.
   */
  lemma NoDoubleApplication(c: B.Config, fates: nat -> Fate)
    ensures var r := Execute(c, fates);
            && AppliedOnce(fates, r, 0)
            && r.attempts <= (if c.maxRetries >= 0 then c.maxRetries + 1 else 0)
            && |r.writes| <= 1
            && forall k: nat | k + 1 < r.attempts :: Retried(fates(k))
  {
    FromIsAppliedOnce(c, fates, 0, None);
  }

  /** Begin or Commit of this attempt fails. */
  predicate Recoded(f: Fate, reason: Error) {
    f.beginFails == Some(reason)
    || (f.beginFails.None? && f.fn.Returns? && f.commit.CommitFails? && f.commit.reason == reason)
  }

  /** An attempt that is not retried gives the call its outcome. */
  lemma {:induction false} LastDecides(c: B.Config, fates: nat -> Fate, i: nat, last: Option<Error>)
    ensures var r := ExecuteFrom(c, fates, i, last);
            r.attempts > 0 && !Retried(LastFate(fates, r, i)) ==> r.outcome == Attempt(LastFate(fates, r, i)).outcome
    decreases c.maxRetries + 1 - i
  {
    hide ExecuteFrom, Attempt;
    if i > c.maxRetries {
      RunOut(c, fates, i, last);
    } else {
      var f := fates(i);
      Turn(c, fates, i, last);
      RetriedIff(f);
      if !(i > 0 && f.cancelled) && Retried(f) {
        LastDecides(c, fates, i + 1, Some(f.fn.e));
      }
    }
  }

  /**
   A serialization failure or deadlock that surfaces in Begin or Commit is never retried, although the
   documentation promises a retry: the wrapper has re-coded it. It ends the call at whichever attempt it occurs.
   */
  lemma {:induction false} RecodedIsNotRetried(c: B.Config, fates: nat -> Fate, k: nat, reason: Error)
    requires k < Execute(c, fates).attempts && Recoded(fates(k), reason)
    ensures Execute(c, fates).attempts == k + 1
    ensures Execute(c, fates).outcome == Failed(Coded(Connection, Some(reason)))
  {
    hide ExecuteFrom, AppliedOnce, Attempt;
    NoDoubleApplication(c, fates);
    LastDecides(c, fates, 0, None);
    RecodedEnds(fates(k), reason);
  }

  lemma RecodedEnds(f: Fate, reason: Error)
    requires Recoded(f, reason)
    ensures !Retried(f) && Attempt(f).outcome == Failed(Coded(Connection, Some(reason)))
  {
  }

  /** Which errors are retried: those whose outermost code is a serialization failure or a deadlock. */
  lemma RetryableIff(e: Error)
    ensures match e
            case Plain => !IsRetryable(e)
            case Wrapped(inner) => IsRetryable(e) <==> IsRetryable(inner)
            case Coded(code, _) => IsRetryable(e) <==> code == Serialization || code == Deadlock
  {
  }

  /** The attempt begins, and fn fails with a serialization failure or a deadlock. */
  predicate FailsToSerialize(f: Fate) {
    f.beginFails.None? && f.fn.Fails? && f.fn.e.Coded? && (f.fn.e.code == Serialization || f.fn.e.code == Deadlock)
  }

  /** The first `k` attempts fail that way, and no wait up to and including the one before attempt `last` is cancelled. */
  ghost predicate Keeps(fates: nat -> Fate, k: nat, last: nat) {
    (forall i: nat | i < k :: FailsToSerialize(fates(i))) && forall i: nat | 1 <= i <= last :: !fates(i).cancelled
  }

  function LastError(fates: nat -> Fate, k: nat): Option<Error> {
    if k == 0 then None
    else if fates(k - 1).fn.Fails? then Some(fates(k - 1).fn.e)
    else None
  }

  /** After `k` such attempts the call goes on from attempt `k`, and has written nothing. */
  lemma {:induction false} Reaches(c: B.Config, fates: nat -> Fate, k: nat)
    requires k <= c.maxRetries + 1 && Keeps(fates, k, if k > 0 then k - 1 else 0)
    ensures var r, rest := Execute(c, fates), ExecuteFrom(c, fates, k, LastError(fates, k));
            r.outcome == rest.outcome && r.attempts == k + rest.attempts && r.writes == rest.writes
  {
    if k > 0 {
      hide ExecuteFrom, Attempt;
      Reaches(c, fates, k - 1);
      Turn(c, fates, k - 1, LastError(fates, k - 1));
      assert FailsToSerialize(fates(k - 1));
      RetriedIff(fates(k - 1));
      var rest := ExecuteFrom(c, fates, k, LastError(fates, k));
      assert [] + rest.writes == rest.writes;
    }
  }

  /** A serialization failure or deadlock in fn is retried while retries are left, and a later success is the call's. */
  lemma {:induction false} SerializationIsRetried(c: B.Config, fates: nat -> Fate, k: nat)
    requires k < c.maxRetries && Keeps(fates, k + 1, k + 1)
    ensures Execute(c, fates).attempts >= k + 2
    ensures fates(k + 1).beginFails.None? && fates(k + 1).fn.Returns? && fates(k + 1).commit.Commits? ==>
              Execute(c, fates) == Report(Nil, Execute(c, fates).actions, [fates(k + 1).batch], k + 2)
  {
    Reaches(c, fates, k + 1);
    Turn(c, fates, k + 1, LastError(fates, k + 1));
  }

  /** When every attempt fails that way, exactly MaxRetries + 1 are made, and the last error is wrapped. */
  lemma {:induction false} RetriesRunOut(c: B.Config, fates: nat -> Fate)
    requires c.maxRetries >= 0 && Keeps(fates, c.maxRetries + 1, c.maxRetries)
    ensures var r := Execute(c, fates);
            && r.attempts == c.maxRetries + 1 && r.writes == []
            && fates(c.maxRetries).fn.Fails? && r.outcome == Failed(Coded(Serialization, Some(fates(c.maxRetries).fn.e)))
  {
    assert FailsToSerialize(fates(c.maxRetries));
    Reaches(c, fates, c.maxRetries + 1);
    RunOut(c, fates, c.maxRetries + 1, LastError(fates, c.maxRetries + 1));
  }

  /** A wait that is cancelled ends the call with a timeout, and nothing is written. */
  lemma {:induction false} CancelledWaitEnds(c: B.Config, fates: nat -> Fate, k: nat)
    requires 1 <= k <= c.maxRetries && Keeps(fates, k, k - 1) && fates(k).cancelled
    ensures var r := Execute(c, fates);
            r.attempts == k && r.writes == [] && r.outcome == Failed(Coded(Timeout, Some(Plain)))
  {
    Reaches(c, fates, k);
    Turn(c, fates, k, LastError(fates, k));
  }

  /** Any other failure of fn, and a panic, ends the call at once and is its outcome. */
  lemma {:induction false} OthersEnd(c: B.Config, fates: nat -> Fate, k: nat)
    requires k <= c.maxRetries && Keeps(fates, k, k) && fates(k).beginFails.None?
    requires match fates(k).fn
             case Returns => false
             case Panics => true
             case Fails(e) => e == Plain || (e.Coded? && e.code != Serialization && e.code != Deadlock)
    ensures var r := Execute(c, fates);
            && r.attempts == k + 1 && r.writes == []
            && r.outcome == match fates(k).fn case Fails(e) => Failed(e) case _ => Panic
  {
    Reaches(c, fates, k);
    Turn(c, fates, k, LastError(fates, k));
  }

  /** The delays of the waits, in order. */
  function Delays(actions: seq<Action>): seq<int> {
    if actions == [] then []
    else (match actions[0]
          case Waited(d) => [d]
          case Cancelled(d) => [d]
          case _ => []) + Delays(actions[1..])
  }

  lemma {:induction false} DelaysAppend(a: seq<Action>, b: seq<Action>)
    ensures Delays(a + b) == Delays(a) + Delays(b)
  {
    if a == [] {
      assert a + b == b;
    } else {
      assert (a + b)[1..] == a[1..] + b;
      DelaysAppend(a[1..], b);
    }
  }

  /** The call ended in a wait that was cut short. */
  predicate Cut(actions: seq<Action>) {
    actions != [] && actions[|actions| - 1].Cancelled?
  }

  lemma PauseDelay(c: B.Config, i: nat, f: Fate)
    ensures Delays(Pause(c, i, f)) == if i == 0 then [] else [B.Delay(c, i, f.rnd)]
    ensures Delays([Cancelled(B.Delay(c, i, f.rnd))]) == [B.Delay(c, i, f.rnd)] && Delays([]) == []
  {
    hide B.Delay;
    assert Pause(c, i, f) != [] ==> Pause(c, i, f)[1..] == [];
    assert [Cancelled(B.Delay(c, i, f.rnd))][1..] == [];
  }

  lemma AttemptDelaysNot(f: Fate)
    ensures Delays(Attempt(f).actions) == [] && Attempt(f).actions != [] && !Cut(Attempt(f).actions)
  {
    forall k | 0 <= k < |Attempt(f).actions| ensures !Attempt(f).actions[k].Waited? && !Attempt(f).actions[k].Cancelled? {
    }
    NoDelays(Attempt(f).actions);
  }

  lemma {:induction false} NoDelays(actions: seq<Action>)
    requires forall k | 0 <= k < |actions| :: !actions[k].Waited? && !actions[k].Cancelled?
    ensures Delays(actions) == []
  {
    if actions != [] {
      NoDelays(actions[1..]);
    }
  }

  /** From attempt `i` on, there is one wait before each attempt but the first of all, and one more if that is cut short. */
  ghost predicate WaitsFit(c: B.Config, fates: nat -> Fate, i: nat, actions: seq<Action>, attempts: nat) {
    var ds, first := Delays(actions), if i == 0 then 1 else i;
    && (forall j | 0 <= j < |ds| :: ds[j] == B.Delay(c, first + j, fates(first + j).rnd))
    && |ds| == attempts + (if Cut(actions) then 1 else 0) - (if i == 0 && attempts > 0 then 1 else 0)
  }

  lemma {:induction false} DelaysFrom(c: B.Config, fates: nat -> Fate, i: nat, last: Option<Error>)
    ensures WaitsFit(c, fates, i, ExecuteFrom(c, fates, i, last).actions, ExecuteFrom(c, fates, i, last).attempts)
    decreases c.maxRetries + 1 - i
  {
    hide ExecuteFrom, Attempt, B.Delay, IsRetryable, Pause, Delays, WaitsFit;
    var f, r := fates(i), ExecuteFrom(c, fates, i, last);
    EndWaits(c, fates, i);
    if i > c.maxRetries {
      RunOut(c, fates, i, last);
    } else {
      Turn(c, fates, i, last);
      RetriedIff(f);
      if i == 0 || !f.cancelled {
        if Retried(f) {
          var rest := ExecuteFrom(c, fates, i + 1, Some(f.fn.e));
          DelaysFrom(c, fates, i + 1, Some(f.fn.e));
          JoinWaits(c, fates, i, rest.actions, rest.attempts);
        } else {
          JoinWaits(c, fates, i, [], 0);
          assert Pause(c, i, f) + Attempt(f).actions + [] == Pause(c, i, f) + Attempt(f).actions;
        }
      }
    }
  }

  lemma EndWaits(c: B.Config, fates: nat -> Fate, i: nat)
    ensures WaitsFit(c, fates, i, [], 0) && WaitsFit(c, fates, i + 1, [], 0)
    ensures i > 0 ==> WaitsFit(c, fates, i, [Cancelled(B.Delay(c, i, fates(i).rnd))], 0)
  {
    hide B.Delay;
    PauseDelay(c, i, fates(i));
  }

  lemma JoinWaits(c: B.Config, fates: nat -> Fate, i: nat, rest: seq<Action>, attempts: nat)
    requires WaitsFit(c, fates, i + 1, rest, attempts)
    ensures WaitsFit(c, fates, i, Pause(c, i, fates(i)) + Attempt(fates(i)).actions + rest, 1 + attempts)
  {
    hide Attempt, B.Delay, Pause, Delays;
    var pause, acts := Pause(c, i, fates(i)), Attempt(fates(i)).actions;
    AttemptDelaysNot(fates(i));
    PauseDelay(c, i, fates(i));
    DelaysAppend(pause, acts);
    DelaysAppend(pause + acts, rest);
    assert Cut(pause + acts + rest) <==> Cut(rest);
  }

  /** Before retry k the call waits the k-th delay, and it waits at no other time. */
  lemma WaitsAreDelays(c: B.Config, fates: nat -> Fate)
    ensures var r := Execute(c, fates);
            var ds := Delays(r.actions);
            && (forall j | 0 <= j < |ds| :: ds[j] == B.Delay(c, j + 1, fates(j + 1).rnd))
            && |ds| == r.attempts + (if Cut(r.actions) then 1 else 0) - (if r.attempts > 0 then 1 else 0)
  {
    DelaysFrom(c, fates, 0, None);
  }

  /** Two calls of WithTx, one inside the other on the caller's context: a failing outer attempt keeps what the inner one wrote. */
  lemma InnerSurvives(c: B.Config, f: Fate, inner: nat -> Fate)
    requires f.beginFails.None? && !f.fn.Returns?
    ensures NestedWrites(c, f, inner, false) == Execute(c, inner).writes && NestedWrites(c, f, inner, true) == []
    ensures Execute(c, inner).outcome.Nil? ==> |NestedWrites(c, f, inner, false)| == 1
  {
    NoDoubleApplication(c, inner);
  }

  /** What `n` attempts of an outer call write, each with its own inner call on the caller's context. */
  function NestedRun(c: B.Config, fates: nat -> Fate, inner: nat -> nat -> Fate, n: nat): seq<Batch> {
    if n == 0 then [] else NestedRun(c, fates, inner, n - 1) + NestedWrites(c, fates(n - 1), inner(n - 1), false)
  }

  /** An outer call that is retried repeats its inner call: `n` attempts that all fail have written it `n` times. */
  lemma {:induction false} RetriesRepeatInner(c: B.Config, fates: nat -> Fate, inner: nat -> nat -> Fate, n: nat)
    requires forall k: nat | k < n :: Retried(fates(k)) && Execute(c, inner(k)).outcome.Nil?
    ensures |NestedRun(c, fates, inner, n)| == n
  {
    if n > 0 {
      RetriesRepeatInner(c, fates, inner, n - 1);
      assert Retried(fates(n - 1));
      InnerSurvives(c, fates(n - 1), inner(n - 1));
    }
  }

  /** Every transaction that was begun is ended by exactly one commit or rollback before the next one begins. */
  function Balance(actions: seq<Action>, isOpen: bool): Option<bool> {
    if actions == [] then Some(isOpen)
    else match actions[0]
      case Began => if isOpen then None else Balance(actions[1..], true)
      case CommitIssued => if isOpen then Balance(actions[1..], false) else None
      case RollbackIssued => if isOpen then Balance(actions[1..], false) else None
      case FnRan => if isOpen then Balance(actions[1..], isOpen) else None
      case _ => if isOpen then None else Balance(actions[1..], isOpen)
  }

  lemma {:induction false} BalanceAppend(a: seq<Action>, b: seq<Action>, isOpen: bool)
    requires Balance(a, isOpen).Some?
    ensures Balance(a + b, isOpen) == Balance(b, Balance(a, isOpen).value)
  {
    if a == [] {
      assert a + b == b;
    } else {
      assert (a + b)[1..] == a[1..] + b;
      BalanceAppend(a[1..], b, if a[0].Began? then true else if a[0].CommitIssued? || a[0].RollbackIssued? then false else isOpen);
    }
  }

  lemma AttemptBalanced(f: Fate)
    ensures Balance(Attempt(f).actions, false) == Some(false)
  {
  }

  lemma {:induction false} EveryTxEnds(c: B.Config, fates: nat -> Fate, i: nat, last: Option<Error>)
    ensures Balance(ExecuteFrom(c, fates, i, last).actions, false) == Some(false)
    decreases c.maxRetries + 1 - i
  {
    var f := fates(i);
    if i > c.maxRetries {
    } else if i > 0 && f.cancelled {
      assert Balance([Cancelled(B.Delay(c, i, f.rnd))], false) == Some(false);
    } else {
      AttemptBalanced(f);
      assert Balance(Pause(c, i, f), false) == Some(false);
      BalanceAppend(Pause(c, i, f), Attempt(f).actions, false);
      if Retried(f) {
        var rest := ExecuteFrom(c, fates, i + 1, Some(f.fn.e));
        EveryTxEnds(c, fates, i + 1, Some(f.fn.e));
        BalanceAppend(Pause(c, i, f) + Attempt(f).actions, rest.actions, false);
      }
      RetriedIff(f);
    }
  }

  // ---------- Waiting time ----------

  function TotalWait(actions: seq<Action>): int {
    if actions == [] then 0
    else (if actions[0].Waited? || actions[0].Cancelled? then actions[0].delay else 0) + TotalWait(actions[1..])
  }

  lemma {:induction false} TotalWaitAppend(a: seq<Action>, b: seq<Action>)
    ensures TotalWait(a + b) == TotalWait(a) + TotalWait(b)
  {
    if a == [] {
      assert a + b == b;
    } else {
      assert (a + b)[1..] == a[1..] + b;
      TotalWaitAppend(a[1..], b);
    }
  }

  function Draws(fates: nat -> Fate): nat -> nat {
    (k: nat) => fates(k).rnd
  }

  lemma AttemptWaitsNot(f: Fate)
    ensures TotalWait(Attempt(f).actions) == 0
  {
    assert [Began, FnRan, RollbackIssued][1..] == [FnRan, RollbackIssued] && [FnRan, RollbackIssued][1..] == [RollbackIssued];
    assert [Began, FnRan, CommitIssued][1..] == [FnRan, CommitIssued] && [FnRan, CommitIssued][1..] == [CommitIssued];
  }

  /** The waits recorded from attempt `i` on are at most what the backoff adds up to. */
  lemma {:induction false} WaitsFrom(c: B.Config, fates: nat -> Fate, i: nat, last: Option<Error>)
    requires 0 <= c.base < B.TWO_34 && 0 <= c.max < B.TWO_62 && 0 <= c.maxRetries
    ensures var before := if i == 0 then 0 else B.Waits(c, i - 1, Draws(fates));
            i <= c.maxRetries + 1 ==>
              before + TotalWait(ExecuteFrom(c, fates, i, last).actions) <= B.Waits(c, c.maxRetries, Draws(fates))
    decreases c.maxRetries + 1 - i
  {
    hide ExecuteFrom, Attempt, B.Waits, B.Delay, TotalWait, Pause, IsRetryable;
    if i <= c.maxRetries {
      var f, n := fates(i), c.maxRetries;
      Turn(c, fates, i, last);
      RetriedIff(f);
      OneWait(c, fates, i);
      WaitsGrow(c, i, n, Draws(fates));
      if !(i > 0 && f.cancelled) {
        TotalWaitAppend(Pause(c, i, f), Attempt(f).actions);
        if Retried(f) {
          var rest := ExecuteFrom(c, fates, i + 1, Some(f.fn.e)).actions;
          WaitsFrom(c, fates, i + 1, Some(f.fn.e));
          TotalWaitAppend(Pause(c, i, f) + Attempt(f).actions, rest);
        }
      }
    } else {
      RunOut(c, fates, i, last);
      NoWait();
    }
  }

  lemma NoWait()
    ensures TotalWait([]) == 0
  {
  }

  /** What turn `i` waits, cut short or not, is the i-th wait of the backoff. */
  lemma OneWait(c: B.Config, fates: nat -> Fate, i: nat)
    ensures var f := fates(i);
            var before := if i == 0 then 0 else B.Waits(c, i - 1, Draws(fates));
            && before + TotalWait(Pause(c, i, f)) == B.Waits(c, i, Draws(fates))
            && (i > 0 ==> before + TotalWait([Cancelled(B.Delay(c, i, f.rnd))]) == B.Waits(c, i, Draws(fates)))
            && TotalWait(Attempt(f).actions) == 0
  {
    hide B.Delay;
    var f := fates(i);
    AttemptWaitsNot(f);
    if i > 0 {
      var d := B.Delay(c, i, f.rnd);
      assert [Waited(d)][1..] == [] && [Cancelled(d)][1..] == [];
      assert B.Waits(c, i, Draws(fates)) == B.Waits(c, i - 1, Draws(fates)) + d;
    }
  }

  lemma {:induction false} WaitsGrow(c: B.Config, m: nat, n: nat, rnds: nat -> nat)
    requires 0 <= c.base < B.TWO_34 && 0 <= c.max < B.TWO_62 && m <= n
    ensures B.Waits(c, m, rnds) <= B.Waits(c, n, rnds)
    decreases n - m
  {
    if m < n {
      WaitsGrow(c, m, n - 1, rnds);
      B.DelayRange(c, n, rnds(n));
      B.ProductFits(c.base, n);
    }
  }

  /** A whole call waits at most 5/4 of base * (2^MaxRetries - 1), and at most 5/4 of MaxRetries times the cap. */
  lemma RunWaitsBound(c: B.Config, fates: nat -> Fate)
    requires 0 <= c.base < B.TWO_34 && 0 <= c.max < B.TWO_62 && 0 <= c.maxRetries
    ensures 4 * TotalWait(Execute(c, fates).actions)
         <= 5 * B.Min(c.base * (B.Pow2(c.maxRetries) - 1), c.maxRetries * c.max)
  {
    WaitsFrom(c, fates, 0, None);
    B.WaitsBound(c, c.maxRetries, Draws(fates));
  }
}
