# Verified models of the Redis and PostgreSQL utilities

This project models the stateful and arithmetic cores of the repository in Dafny and proves what they promise
their callers. `dafny verify dfyconfig.toml` checks all of it.

Redis is a map from keys to values with an optional expiry, read against a clock that only moves forward
(`Redis.dfy`). Lua scripts and single commands are atomic steps. What the network, the clock, the random numbers and
the caller's functions do is a parameter of each step, and the theorems hold for every choice.

| file | subject |
|---|---|
| `FixedWindow.dfy`, `SlidingWindow.dfy` | net effect and reply of the two rate-limit scripts, whole runs of them, bounds over every interval |
| `RateLimiter.dfy` | the rate limiter object, script by script and command by command |
| `Sessions.dfy`, `SessionStore.dfy` | sessions and the per-user index: the invariant over runs, and the store object |
| `Locks.dfy`, `LockClient.dfy`, `WithLock.dfy` | the lease protocol with lost messages, the lock objects, and critical sections |
| `Backoff.dfy`, `TxManager.dfy` | the retry delay in int64 arithmetic, and the transaction retry loop against a database |
| `Placeholders.dfy`, `Segments.dfy`, `Clauses.dfy` | compilation of `?` templates to `$n` SQL, and how PostgreSQL reads the result |
| `ChainMeaning.dfy`, `CompoundChains.dfy` | what an AND/OR chain of conditions means to the server, also when conditions are AND/OR lists themselves |
| `Builders.dfy`, `WriteBuilders.dfy` | the SELECT, UPDATE, INSERT and DELETE builders |
| `CacheRuns.dfy`, `Cache.dfy` | cache-aside reads by many callers at once, and the cache object |

Each object's methods issue the source's commands in the source's order and are proved equal to a function of the old
state; the theorems about runs are about those functions.

Where the code does something else than its documentation or comments say, the model follows the code:

* `postgres/txmanager.go:117` and `USAGE.md:164` promise that serialization failures are retried. A failure that
  surfaces in Begin or Commit is re-coded as a connection error (`postgres/tx.go:90-94`, `postgres/pool.go:346-352`)
  and is not retried: `TxManager.RecodedIsNotRetried`.
* The count that `DeleteByUserID` returns includes the index key (`redis/session.go:311-320`), so it is one more than
  the number of sessions: `SessionStoring.SessionStore.DeleteByUserID`.
* `Extend` with a time that is not positive, and `Update` of a session past its expiry, leave a stored expiry that
  disagrees with the key (`redis/session.go:239-251`): `Sessions.ExtendIff` and `Sessions.UpdateIff` say exactly when.
* Two creates that interleave, or a create inside `DeleteByUserID`, break the intent stated at
  `redis/session.go:175-182`: `Sessions.CreateAfterReadIff`, `Sessions.RacingCreatesShortenIndex`,
  `Sessions.DeleteAfterReadIff`.
* `GetStatus` reads only the fixed-window key, also for callers of the sliding form (`redis/ratelimit.go:281-282`):
  `RateLimiting.StatusOfSlidingIff` says exactly when it is right, `RateLimiting.StatusMissesSliding` gives a run
  in which it is not.
* `postgres/txmanager.go:178-179` stores the transaction in a context "for nested access", but fn never gets that
  context. A nested `WithTx` on the caller's context is a transaction of its own, which survives a failing outer one
  and is repeated by its retries: `TxManager.InnerSurvives`, `TxManager.RetriesRepeatInner`.
* Conditions are not parenthesised, so a condition with an OR of its own can change what its chain means.
  `CompoundChains.AgreeIff` says exactly when it does not.
* The comment at `postgres/txmanager.go:217` says that the bound on the attempt prevents overflow. It does so exactly
  for bases below 2^34 ns: `Backoff.InRangeIff`.

## Model

| member | source | states |
|---|---|---|
| RateLimiting.RateLimiter.AllowN | redis/ratelimit.go:123-149 | the fixed-window script leaves the stated counters and returns the stated reply, for every limit, window and amount |
| RateLimiting.RateLimiter.SlidingWindowAllowN | redis/ratelimit.go:200-230 | the sliding script, with its loop over ZADD, leaves the stated sorted sets and returns the stated reply |
| RateLimiting.AddMembers | redis/ratelimit.go:212-214 | the ZADD loop adds exactly the n new members, each once, and creates a missing key without expiry |
| RateLimiting.RateLimiter.Reset | redis/ratelimit.go:264-278 | both keys of the identifier are gone and every other key is as before |
| RateLimiting.RateLimiter.GetStatus | redis/ratelimit.go:281-319 | the reply is that of the status function and nothing changes |
| RateLimiting.StatusOfSlidingIff | redis/ratelimit.go:281-318 | for an identifier without a fixed-window key, GetStatus agrees with a one-unit sliding call iff max is not positive or the pruned log holds fewer than max members |
| RateLimiting.StatusMissesSliding | redis/ratelimit.go:281-318 | after a sliding call that takes the whole limit GetStatus still reports all of it, while the next sliding call is denied |
| FixedWindow.StepInvariant | redis/ratelimit.go:123-142 | one admitted call by any identifier keeps the log and key invariants of every identifier |
| FixedWindow.Joining | redis/ratelimit.go:123-142 | a call either joins the latest window or finds the key dead and opens one after all others have ended |
| FixedWindow.RunInvariant | redis/ratelimit.go:123-142 | after every run: each admission lies in its own window, windows open at least a window apart, each holds at most max, and the stored counter and expiry are those of the latest window |
| FixedWindow.WindowBound | redis/ratelimit.go:134-142 | no window admits more than max units, and every later window of the identifier opens at least a window after it |
| FixedWindow.IntervalBound | redis/ratelimit.go:123-142 | in every run, every half-open interval one window long admits at most 2 * max - 1 units, which is sharper than 2 * max |
| FixedWindow.IntervalBoundIsTight | redis/ratelimit.go:123-142 | a run that admits exactly 2 * max - 1 units in such an interval, for every max and window of at least 2 |
| FixedWindow.ReachableStore | redis/ratelimit.go:134-142 | every reachable counter, resets included, is between 1 and max and has an expiry at most a window away |
| FixedWindow.StatusAgreesWithAllow | redis/ratelimit.go:281-319 | in every reachable state GetStatus changes nothing, says allowed iff a one-unit Allow would be admitted, and reports max minus the units used |
| FixedWindow.StatusSpelled | redis/ratelimit.go:290-318 | on any store: the units used, the clamp at zero, and the full window unless the key has time left |
| FixedWindow.AnswerFromLog | redis/ratelimit.go:123-149 | every reply, read off the log of admissions: admitted iff the units fit beside those of the current window, remaining is what is left after the call, and the reset time ends that window |
| FixedWindow.AnswerSpelled | redis/ratelimit.go:123-149 | the reply on any store, also on a key without expiry |
| FixedWindow.ResetPromise | redis/ratelimit.go:144-149 | a one-unit request denied now is admitted at the reported reset time, which is positive and at most a window away |
| SlidingWindow.PrunedIsWindow | redis/ratelimit.go:201-205 | after pruning, the sorted set is exactly the set of logged members newer than now - window |
| SlidingWindow.StepFaithful | redis/ratelimit.go:200-218 | one call by any identifier keeps the store faithful to the log for all of them |
| SlidingWindow.RunFaithful | redis/ratelimit.go:201-215 | over every run, pruning and key expiry lose no member that still counts, and every stored member was admitted |
| SlidingWindow.CardIsCountIff | redis/ratelimit.go:205-213 | ZCARD never exceeds the number of units admitted in the window, and equals it iff no unit shares its member with another |
| SlidingWindow.DistinctCard | redis/ratelimit.go:205-213 | with distinct random draws ZCARD is the number of units admitted in the window |
| SlidingWindow.RefinesHistory | redis/ratelimit.go:200-230 | every reply, with verdict, remaining and reset time, is that of a limiter that never forgets an admitted unit |
| SlidingWindow.IntervalBound | redis/ratelimit.go:200-218 | in every run and for every t, at most max units are admitted with times in (t - window, t] |
| SlidingWindow.MembersBound | redis/ratelimit.go:200-218 | whatever the draws, for every t at most max distinct members are admitted with times in (t - window, t] |
| SlidingWindow.AnyDrawsBound | redis/ratelimit.go:200-218 | whatever the draws, the units in (t - window, t] exceed max by no more than the units whose member had been admitted before |
| SlidingWindow.CollisionBreaksBound | redis/ratelimit.go:213-213 | without distinct draws the bound fails: three units pass a limit of two |
| SlidingWindow.ReachableStore | redis/ratelimit.go:205-215 | whatever the draws, no stored sorted set exceeds max and every score is between 0 and now |
| SlidingWindow.ResetPromise | redis/ratelimit.go:220-230 | whatever the draws, a one-unit request denied now is admitted at the reported reset time, which lies in (0, window] |
| SlidingWindow.ResetIsEarliest | redis/ratelimit.go:220-230 | at every instant before the reported reset time a one-unit request is still denied, whatever the draws |
| SlidingWindow.ReplyFromLog | redis/ratelimit.go:204-218 | verdict and remaining of every reply, in terms of the units admitted before it |
| SlidingWindow.ResetFromLog | redis/ratelimit.go:220-228 | the reset time of every reply is the time until the first unit in the window leaves it, this call's included, and a full window if there is none |
| SlidingWindow.ResetSpelled | redis/ratelimit.go:221-228 | for any scores: oldest score plus window minus now, never negative |
| Sessions.CreateAfterReadIff | redis/session.go:176-192 | the writes of a create, with any TTL read before them, keep the index invariant iff no live session of the user outlives the index expiry they set |
| Sessions.CreateKeeps | redis/session.go:172-192 | a serialised create keeps the invariant and shortens no index |
| Sessions.CreateExact | redis/session.go:154-192 | the session entry and its expiry, the ID added to the user's index, and the index expiry as the later of its old one and the new session's |
| Sessions.RacingCreatesShortenIndex | redis/session.go:176-191 | two creates that both read before either writes leave a live session outside an index that has expired |
| Sessions.UpdateIff | redis/session.go:238-263 | an update with any session value keeps the invariant iff its time is ahead, its user's index covers it, and no other index holds it |
| Sessions.UpdateLiveKeeps | redis/session.go:260-263 | updating a live session without changing ID, user and expiry keeps the invariant |
| Sessions.UpdateExact | redis/session.go:238-263 | the caller's value is stored with this moment as last activity, until its expiry |
| Sessions.LateUpdateExact | redis/session.go:245-251 | a session past its expiry is stored for the default time with the expiry it had |
| Sessions.TouchMovesNoExpiry | redis/session.go:227-256 | touching changes only lastActive of that session and moves no expiry of any key |
| Sessions.ExtendIff | redis/session.go:399-427 | extending a live session keeps the invariant iff the new time is positive |
| Sessions.ExtendExact | redis/session.go:405-427 | the key holds the old session with expiry now + ttl and this moment as last activity, until then; the index lasts to the later of its old expiry and now + ttl; nothing else changes |
| Sessions.LateExtendExact | redis/session.go:405-427 | a time that is not positive stores a passed expiry under a key that lives for the default time, and moves no index |
| Sessions.ExtendNeverShortens | redis/session.go:412-427 | no extension, whatever its time, shortens an index or changes its members |
| Sessions.DeleteKeeps | redis/session.go:266-290 | deleting a session keeps the invariant, removes that session and no other |
| Sessions.DeleteExact | redis/session.go:276-282 | the key is gone, the ID is out of its user's index, and every other key and index entry stays |
| Sessions.DeleteMissing | redis/session.go:268-274 | deleting a session that is not there changes nothing |
| Sessions.DeleteAfterReadIff | redis/session.go:297-313 | the DEL of what an earlier read found keeps the invariant iff it found every live session of the user |
| Sessions.DeleteByUserExact | redis/session.go:293-321 | afterwards the user has no live session, and every other session and index is as before |
| Sessions.PresentIsLive | redis/session.go:348-370 | what the index leads to is exactly the set of the user's live sessions |
| Sessions.CleanupKeeps | redis/session.go:373-384 | removing IDs without a live session from an index keeps the invariant and touches no session |
| Sessions.CleanupExact | redis/session.go:373-384 | exactly the given IDs leave that user's index |
| Sessions.StepKeepsWorldInv | redis/session.go:139-483 | each operation, and each pending cleanup, keeps the index invariant and the deadness of what is pending |
| Sessions.RunKeepsInv | redis/session.go:139-483 | the index invariant, with every indexed ID created for that user, survives every serialised run with delayed, repeated and never started cleanups |
| Sessions.ReachableInv | redis/session.go:139-483 | it holds after every such run from an empty store |
| Sessions.IndexedForOwner | redis/session.go:188-192 | in every reachable state every ID in an index, its session live or expired, was created for that user |
| Sessions.DeadStaysDead | redis/session.go:349-383 | a session that is gone is gone in every later state |
| Sessions.DelayedCleanupIsSafe | redis/session.go:349-383 | IDs found expired may be removed at any later point of any run: the invariant holds and every live session is still listed |
| SessionStoring.SessionStore.CreateWithTTL | redis/session.go:140-200 | a time that is not positive is refused; otherwise the new store and the returned session are the stated ones |
| SessionStoring.SessionStore.GetWithTouch | redis/session.go:209-235 | it succeeds iff the session is live; touching has exactly the effect of Touch, and the returned copy carries a revised expiry the stored one does not |
| SessionStoring.SessionStore.WriteBack | redis/session.go:238-257 | the value is stored as it was before its expiry was revised, and the caller gets the revised one |
| SessionStoring.SessionStore.UpdateSession | redis/session.go:260-263 | the new store is that of Update, and the caller's value gets its revised times |
| SessionStoring.SessionStore.ExtendTTL | redis/session.go:399-430 | it succeeds iff the session is live, and the new store is that of Extend |
| SessionStoring.SessionStore.DeleteSession | redis/session.go:266-290 | the new store is that of Delete; a missing session changes nothing |
| SessionStoring.SessionStore.DeleteByUserID | redis/session.go:293-321 | the new store is that of DeleteByUser, and the count is the live sessions plus one for the index key |
| SessionStoring.SessionStore.ListByUserID | redis/session.go:324-386 | each session behind the index is returned once, and the IDs left for cleanup are exactly the stale ones |
| SessionStoring.SessionStore.Count | redis/session.go:434-483 | the count is the number of sessions behind the index, with the same stale IDs |
| SessionStoring.SessionStore.RunCleanup | redis/session.go:373-384 | the given IDs leave the user's index and nothing else changes |
| SessionStoring.ListIsScan | redis/session.go:324-386 | under the invariant a listing is a full scan: every live session of the user, each once, no other, and Count agrees |
| Locks.RunKeeps | redis/lock.go:123-353 | the protocol invariant survives every interleaving of clients, time and lost messages |
| Locks.StepKeeps | redis/lock.go:123-353 | each step of any client keeps the protocol invariant |
| Locks.TenuresAreDisjoint | redis/lock.go:127-146 | in every run, of two successful acquisitions of one key the earlier has ended before the later starts |
| Locks.HeldIffInTenure | redis/lock.go:239-277 | the server stores a live token exactly while a tenure of that key and token runs |
| Locks.OthersCannotAlter | redis/lock.go:239-277 | no request of anyone but its owner changes or removes a live entry |
| Locks.LostStaysLost | redis/lock.go:233-353 | once a token is off the server it never returns, and no later Release, Extend or Verify of its lock succeeds |
| Locks.NotAcquiredIsGone | redis/lock.go:258-352 | in every run, a lock object that says it is not acquired has no live token on the server |
| Locks.ExpiryIsServers | redis/lock.go:327-331 | a passed expiresAt means the token is gone, if it was acquired with a positive time and no Extend lost its reply; if no Release did either, the token is held iff the object is acquired and expiresAt is not reached |
| Locks.LostExtendOutlives | redis/lock.go:280-293 | after an Extend with a lost reply the server holds the token past expiresAt |
| LockClient.AcquireWithTTL | redis/lock.go:123-150 | a delivered request gives a lock iff the key was free and a contention error otherwise; an undelivered one or a negative time gives a connection error; a request that arrives on a free key has its effect even if the reply is lost |
| LockClient.AcquireWithRetryAndTTL | redis/lock.go:159-187 | after k contended attempts a free key is acquired by attempt k + 1, a lost message or a cancelled context ends the call there, and retryCount contended attempts end in a contention error |
| LockClient.WithLockAndTTL | redis/lock.go:217-229 | fn is called iff the last of at most retryCount attempts won, its result is the call's, and the key is released afterwards iff it still holds this call's token |
| LockClient.Lock.Release | redis/lock.go:233-261 | the key goes iff this owner holds it and the request arrives; success is reported iff it was held and the reply arrived |
| LockClient.Lock.Extend | redis/lock.go:265-296 | the key is re-timed iff this owner holds it and the request arrives; a delivered refusal marks the lock as lost |
| LockClient.Lock.Verify | redis/lock.go:334-353 | a delivered answer is true iff the server holds this token, and marks the lock as lost otherwise |
| WithLock.RunKeeps | redis/lock.go:217-229 | while fn is within its lease the server stores exactly that lease, over every run of processes and other users |
| WithLock.CriticalSectionsExclude | redis/lock.go:217-229 | two processes are inside fn for one resource only if one of them has outlived its lease |
| WithLock.AttemptsBound | redis/lock.go:162-186 | no call makes more than retryCount attempts, and fn starts only after one to retryCount of them |
| WithLock.ReleaseFrees | redis/lock.go:222-226 | a deferred release that reaches the server leaves the call's token on no key |
| WithLock.LoopIsTries | redis/lock.go:162-186 | the attempts that AcquireWithRetryAndTTL is proved to make are the attempts of a process: trying before each, in fn after the last iff it won |
| WithLock.OutlivedLeaseIsShared | redis/lock.go:217-229 | an fn that outlives its lease by any amount can be joined by another |
| Backoff.CalculateRetryDelay | postgres/txmanager.go:216-243 | the delay is that of the int64 function, every step wrapped |
| Backoff.DelayRange | postgres/txmanager.go:216-243 | for a base below 2^34 ns and a cap below 2^62 ns nothing overflows and the delay lies in [d - d/4, 5d/4) around the capped exponential d |
| Backoff.DelaySpelled | postgres/txmanager.go:216-243 | the delay in full: capped doubling from the clamped attempt, three quarters of it, and the draw below half of it |
| Backoff.InRangeIff | postgres/txmanager.go:217-243 | for a cap below 2^62 ns, the delay stays in range at every attempt and for every draw iff the base is below 2^34 ns |
| Backoff.WrappedIsNegative | postgres/txmanager.go:225-230 | an attempt whose product lies between 2^63 and 2^64 has a negative delay whatever the draw |
| Backoff.WaitsBound | postgres/txmanager.go:133-148 | the waits of n retries sum to at most 5/4 of both base * (2^n - 1) and n times the cap |
| TxManager.Manager.ExecuteTx | postgres/txmanager.go:172-212 | one attempt leaves the stated rows, actions and outcome and no open transaction, for every outcome of begin, fn, commit, rollback and panic |
| TxManager.Database.BeginTx | postgres/pool.go:346-352 | a transaction is open, or the error is re-coded and nothing changes |
| TxManager.Database.Commit | postgres/tx.go:90-95 | the open batch is written if the commit succeeds, and possibly if it fails; the error is re-coded |
| TxManager.Database.Rollback | postgres/tx.go:98-103 | the open transaction ends and nothing is written |
| TxManager.Manager.ExecuteWithRetry | postgres/txmanager.go:130-169 | the loop leaves the stated rows, actions and outcome, and no open transaction |
| TxManager.Manager.WithTxOptions | postgres/txmanager.go:118-127 | a context that carries a transaction has fn run in it, with nothing committed or rolled back; any other context runs the retry loop in a transaction of its own and leaves those in progress alone |
| TxManager.Manager.ExecuteNested | postgres/txmanager.go:172-212 | one attempt whose fn calls WithTx again writes both batches together on a context with the transaction, and separately on the caller's context |
| TxManager.InnerSurvives | postgres/txmanager.go:178-204 | when fn fails or panics, an inner call on the caller's context keeps exactly what it committed, and one in the transaction keeps nothing |
| TxManager.RetriesRepeatInner | postgres/txmanager.go:133-160 | n retried attempts have written the inner call n times |
| TxManager.RetriedIff | postgres/txmanager.go:157-160 | an attempt is retried iff begin worked and fn itself failed with a retryable error; such an attempt wrote nothing |
| TxManager.RetryableIff | postgres/txmanager.go:246-253 | for every error chain: retryable iff its outermost code is a serialization failure or a deadlock |
| TxManager.SerializationIsRetried | postgres/txmanager.go:133-166 | after k + 1 attempts whose fn failed with one of these codes another is made while retries are left, and if it commits the call succeeds with that batch only |
| TxManager.RetriesRunOut | postgres/txmanager.go:133-168 | when every attempt fails so, MaxRetries + 1 are made and the last error is wrapped as a serialization failure |
| TxManager.CancelledWaitEnds | postgres/txmanager.go:143-147 | a cancelled wait ends the call with a timeout and nothing written |
| TxManager.OthersEnd | postgres/txmanager.go:157-160 | any other failure of fn, and a panic, ends the call at once and is its outcome |
| TxManager.WaitsAreDelays | postgres/txmanager.go:134-148 | before retry k the call waits the k-th delay, and at no other time |
| TxManager.NoDoubleApplication | postgres/txmanager.go:130-212 | nothing follows a Commit; nil means exactly one attempt's batch was written; without a Commit nothing was; at most MaxRetries + 1 attempts, all but the last retryable failures of fn |
| TxManager.RecodedIsNotRetried | postgres/tx.go:90-94 | a failure of Begin or Commit, at whichever attempt it occurs, is that call's last attempt and its outcome, whatever its reason |
| TxManager.EveryTxEnds | postgres/txmanager.go:172-212 | every begun transaction is ended by exactly one commit or rollback before the next begins |
| TxManager.RunWaitsBound | postgres/txmanager.go:133-148 | a whole call waits at most 5/4 of base * (2^MaxRetries - 1) and of MaxRetries times the cap |
| Placeholders.ReplacePlaceholders | postgres/query.go:538-550 | the loop writes the compiled text and returns the start index plus the number of marks |
| Placeholders.ReadsBackIff | postgres/query.go:538-550 | compiled text reads back as its template iff no mark and no dollar sign runs into a digit |
| Placeholders.MeaningIff | postgres/query.go:538-550 | with as many arguments as marks, the server's reading is the caller's iff no mark and no dollar sign runs into a digit |
| Placeholders.CompiledMeaning | postgres/query.go:538-550 | parameters are $1 to $n in order, substitution gives the filled template, and reading parameters as marks recovers it |
| Segments.StatementMeaning | postgres/query.go:473-506 | the same for a statement of raw text and templates with one flat argument list: each clause is filled with its own arguments |
| Segments.RenderIsReplace | postgres/query.go:388-431 | numbering threaded through the pieces is the numbering of the whole template |
| Clauses.BuildConditionClauses | postgres/query.go:410-431 | text, arguments and next index are those of the condition chain |
| Clauses.ChainArgs | postgres/query.go:425-428 | a chain passes exactly its clauses' arguments, in order |
| Clauses.LinkStep | postgres/query.go:417-429 | one turn of the condition loop |
| Clauses.ChainSpelled | postgres/query.go:416-430 | the text of a chain clause by clause: keyword, connectives and numbered conditions |
| Clauses.BuildIn | postgres/query.go:169-173 | the IN condition has one mark per value, separated by commas |
| Clauses.QuestionsAt | postgres/query.go:169-173 | the list of marks is "?, ?, ?" character by character |
| Clauses.InIsClean | postgres/query.go:165-190 | an IN or NOT IN condition on a plain column has as many marks as values and is readable |
| Clauses.BetweenIsClean | postgres/query.go:221-225 | a BETWEEN condition has its two marks and is readable |
| ChainMeaning.EmittedChain | postgres/query.go:417-429 | token by token the emitted chain is the conditions with AND and OR between them |
| ChainMeaning.ChainMeans | postgres/query.go:417-429 | the server parses every chain of atomic conditions completely, and it holds iff one of the maximal AND-runs cut at isOr does |
| CompoundChains.EmittedFlat | postgres/query.go:417-429 | a chain of conditions that are AND/OR lists of atoms emits the same text and arguments as the chain of all their atoms |
| CompoundChains.AgreeIff | postgres/query.go:417-429 | for every such chain, server and caller agree on all rows iff each condition with an OR of its own is first or joined by OR, and last or followed by OR |
| CompoundChains.ALeak | postgres/query.go:417-429 | every condition that breaks this has a row that the server accepts and the caller does not |
| CompoundChains.DisjunctionLeaks | postgres/query.go:417-429 | `a OR b` AND `c` emits the text of the three atoms as one chain, and a row on which only a holds is accepted |
| Builders.SelectBuilder.BuildJoinClauses | postgres/query.go:389-407 | text, arguments and next index are those of the joins |
| Builders.SelectBuilder.WhereIn | postgres/query.go:165-176 | no values add no condition; otherwise one IN condition with these values |
| Builders.SelectBuilder.WhereNotIn | postgres/query.go:179-190 | no values add no condition; otherwise one NOT IN condition with these values |
| Builders.SelectBuilder.WhereBetween | postgres/query.go:221-225 | one BETWEEN condition with both values in order |
| Builders.BuildOrderBy | postgres/query.go:434-447 | the ORDER BY list with each direction in upper case, an empty one being ascending |
| Builders.SelectBuilder.Build | postgres/query.go:473-506 | a valid builder yields the statement's rendered text and flat arguments, an invalid one is refused; Builders.SelectSpelled says what that text is |
| Builders.SelectSpelled | postgres/query.go:473-506 | the whole text: DISTINCT, columns, table, joins, WHERE, GROUP BY, HAVING, ORDER BY, LIMIT, OFFSET and the lock, each in its place and only when set |
| Builders.JoinSpelled | postgres/query.go:395-405 | the text of the joins, join by join |
| Builders.OrderSpelled | postgres/query.go:438-446 | each ORDER BY entry: column and direction in upper case, ASC if there is none |
| Builders.NumberSpelled | postgres/query.go:449-459 | the written limit or offset reads back as the number, negative ones with a minus sign |
| Builders.StatementRender | postgres/query.go:482-503 | the index that each numbered part returns is where the next one starts |
| Builders.SelectArgs | postgres/query.go:484-499 | a SELECT passes the arguments of its joins, then WHERE, then HAVING |
| Builders.SelectMeaning | postgres/query.go:473-506 | the server reads a built SELECT as its clauses filled with their own arguments, with parameters $1 to $n |
| WriteBuilders.UpdateBuilder.BuildSetClause | postgres/update.go:111-120 | text, arguments and next index are those of the SET list |
| WriteBuilders.UpdateBuilder.BuildWhereClause | postgres/update.go:123-144 | this copy of the loop yields the same text, arguments and next index as the SELECT builder's |
| WriteBuilders.UpdateBuilder.Build | postgres/update.go:147-173 | a valid builder with something to set yields the rendered statement and arguments, otherwise it is refused |
| WriteBuilders.UpdateSpelled | postgres/update.go:147-173 | the whole text of an UPDATE |
| WriteBuilders.SetSpelled | postgres/update.go:111-120 | the SET list entry by entry, with one parameter each |
| WriteBuilders.UpdateArgs | postgres/update.go:157-165 | an UPDATE passes the values of its SET list, then the arguments of WHERE |
| WriteBuilders.UpdateMeaning | postgres/update.go:111-173 | the server reads a built UPDATE as its clauses filled with their own arguments |
| WriteBuilders.InsertBuilder.ValidateInsertValues | postgres/insert.go:124-134 | accepted iff there are rows and every row is as long as the column list |
| WriteBuilders.InsertBuilder.BuildValuesClause | postgres/insert.go:168-188 | the nested loops yield the text and arguments of the rows |
| WriteBuilders.InsertBuilder.Build | postgres/insert.go:212-234 | a valid, well-shaped builder yields the rendered statement and arguments, otherwise it is refused |
| WriteBuilders.InsertSpelled | postgres/insert.go:191-234 | the whole text of an INSERT, with each form of ON CONFLICT |
| WriteBuilders.RowsSpelled | postgres/insert.go:177-187 | the VALUES list row by row and value by value |
| WriteBuilders.CellIsParameter | postgres/insert.go:177-185 | the value at row r and column c is the argument of parameter r * columns + c + 1 |
| WriteBuilders.InsertMeaning | postgres/insert.go:168-234 | the server reads a built INSERT as its rows with their own values |
| WriteBuilders.DeleteBuilder.Build | postgres/delete.go:80-125 | without conditions and without the opt-in it is refused; otherwise text and arguments, from this third copy of the loop, are those of the same chain |
| WriteBuilders.DeleteSpelled | postgres/delete.go:97-124 | the whole text of a DELETE |
| WriteBuilders.DeleteArgs | postgres/delete.go:101-116 | a DELETE passes exactly the arguments of its conditions, in order |
| WriteBuilders.DeleteMeaning | postgres/delete.go:80-125 | the server reads a built DELETE as its conditions filled with their own arguments |
| CacheRuns.PrefixKeyInjective | redis/cache.go:65-70 | two keys of one cache never share a Redis key |
| CacheRuns.PrefixesApartIff | redis/cache.go:65-70 | two prefixes never collide iff neither, with its colon, begins the other |
| CacheRuns.RunKeeps | redis/cache.go:76-280 | over every interleaving, each stored value was the source's at a time its expiry still vouches for |
| CacheRuns.StalenessBound | redis/cache.go:183-205 | for a changing source, with times of 1 to maxTtl and writes within maxDelay of computing, whatever is served was the source's value within the last maxTtl + maxDelay |
| CacheRuns.Transparent | redis/cache.go:183-280 | for a key whose value does not change, every GetOrSet result is that value and every MGet entry is that value or a miss |
| CacheRuns.NoTtlNoBound | redis/cache.go:116-128 | an entry written with no time is served however old it is |
| Caching.Cache.GetKey | redis/cache.go:76-91 | the live value, a miss, or an error when the server is not reached |
| Caching.Cache.SetWithTTL | redis/cache.go:118-128 | the key gets the value and its expiry iff the server applies the write; zero means no expiry |
| Caching.Cache.GetOrSetWithTTL | redis/cache.go:183-205 | keys, result and use of compute are those of a call: compute only on a miss, the value stored only after it, and a failed write ignored |
| Caching.SerialCall | redis/cache.go:183-205 | that call is the three steps of the concurrent model, for every outcome of read, compute and write |
| Caching.Cache.MGet | redis/cache.go:248-280 | each requested key maps to its live value or to a miss, and no other key appears |
| Caching.ManyIsMGet | redis/cache.go:248-280 | that result is what the concurrent model serves for a read of many keys |
| Caching.Cache.Del | redis/cache.go:325-329 | the keys are gone, and the count is how many of them were there |
| Caching.Cache.DeleteByPattern | redis/cache.go:313-349 | it succeeds iff the scan and every batch of 100 do; a prefix of the scanned keys is gone, on success all of them; the count lies between those still live at the end and those live at the start, whatever the repetitions, batches and expiries on the way |
| Caching.DeleteByPatternExact | redis/cache.go:317-349 | for a SCAN that yields every matching key and nothing else, exactly the matching keys are gone, and the two bounds on the count meet, at their number, iff none of them expires on the way |

## Left out

- FixedWindow.IntervalBound: needs n >= 1 and a window of at least 1 ms, and no Reset of the identifier in the run.
- SlidingWindow.IntervalBound: needs client timestamps that are nondecreasing and equal to the server's clock, distinct random draws, and no Reset in the run; without distinct draws it fails (SlidingWindow.CollisionBreaksBound).
- SlidingWindow.RefinesHistory: the same hypotheses on clock and draws.
- Sessions.RunKeepsInv: operations are serialised and take whole seconds and no time; IDs are new, updates are of live sessions with unchanged ID, user and expiry, and extensions are positive; the lemmas with "Iff" say what happens otherwise.
- Locks.TenuresAreDisjoint: owner tokens are never drawn twice.
- WithLock.CriticalSectionsExclude: the lock object stays inside its WithLock call, and the lease is the one the server gave, not the client's estimate.
- TxManager.NoDoubleApplication: the caller's function writes through its transaction and does not commit or roll it back itself, and the call is looked at by itself (TxManager.RetriesRepeatInner shows what a nested call does); a failed rollback is taken to leave nothing behind.
- Placeholders.MeaningIff: the reader knows parameters only, not quoted strings, comments or dollar quoting, and text is a sequence of characters, not bytes.
- Builders.SelectMeaning: for conditions with as many marks as arguments and without dollar signs, and for names without marks and dollar signs; the same holds for the other three statements.
- ChainMeaning.ChainMeans: each condition is one atom; conditions that are AND/OR lists are the subject of CompoundChains.AgreeIff, where a part with parentheses, NOT or quoting is an atom.
- Caching.DeleteByPatternExact: the count is bounded on both sides and exact when no matching key expires on the way; the pattern is any predicate on keys, and nobody writes during the deletion.
- CacheRuns.Transparent: only cache-aside calls write the keys; direct Set and MSet by callers are not steps of the runs.
- The identifier, table-name and allowlist checks of the builders are one parameter, `valid`.
- WhereLike, WhereILike, WhereNull, WhereNotNull, Page, SetMap, MustBuild, SQL and Args, and the other one-line setters of the builders.
- Builders.BuildOrderBy: upper-casing is that of ASCII letters.
- JSON encoding, logging, metrics and the generation of IDs and tokens; the error of a failed connection stands for all Redis errors.
- Lua's double arithmetic above 2^53, and integer overflow outside the retry delay.
- Sub-second rounding of TTLs in the session store, and key strings that collide across the kinds of keys.
- The glob matcher, SCAN cursors, cluster and sentinel modes, and retries inside the Redis client.
- KeyBuilder, TTL, Expire and Exists of the cache, and TryAcquire, TTL and accessors of the lock: each follows its body at once.
- Pool, connection, migration and error-table code: wrappers around libraries that are not part of this model.
- Savepoints, and locks between a nested transaction and the one around it.
