# Lease lock over one relational table

This project models the core of lock-jdbc: a distributed mutex that keeps one
row per lock in a shared table, keyed by `(pool, name)`. Each row records the
owner (host, IP, thread id), the lease expiry, a pool size and an acquire
count. `NTLockImpl.tryLock` reads the row and then takes one of four
branches:

- insert a new row;
- take over an expired row by a compare-and-swap update;
- refuse a live row of another owner;
- renew the caller's own row by a compare-and-swap update, or do nothing.

`release` is a delete pinned to the owner. The cleaner deletes rows that
expired an hour or more ago.

The Dafny model has these parts:

- `LockApi` (lock_api.dfy): the interface constants `DEFAULT_POOL = "DEFAULT"`, `MAX_POOL_LENGTH = 64` and `MAX_NAME_LENGTH = 64`. It also holds the Java `int` timeout and `TimeUnit.toMillis`.
- `LockRecord` (lock_record.dfy): class `LockDTO`. Key, owner and expiry are `const`, as Java's `final` fields are. Size, times and the modify stamp are mutable, with setters.
- `LockOutcome` (lock_outcome.dfy): class `LockResult`. `success` and `lockDTO` are `const`; `message` is set afterwards. Messages are `Reason` values: the kind of message and the values formatted into it.
- `LockEngine` (lock_engine.dfy): the engine.
  - The table is a `map<Key, Row>` in class `Store`. It stands for the data source that `LockImpl` and `CleanThread` share.
  - Each private statement method (`Select`, `Insert`, `UpdateExpire`, `UpdateTaken`) is specified by a pure function of the table.
  - The whole decision of `tryLock` is the function `Decide`. It takes the row read *before* the write, and that row may be stale. So the lost-race branches can be reached without modelling threads.
  - Store errors are arguments: `Fault` for lock attempts, `throws` for release and clean.
  - Time is an integer number of milliseconds, passed in as `now`.
- `LockTheory` (lock_theory.dfy) proves a lemma for each branch of the decision, and the counts that `lock` reports. It then proves lease exclusivity by induction. A trace is any sequence of atomic store statements from any processes: lock writes after reads of any age, releases and cleans. Once an owner holds a row with expiry at least `until`, no trace that respects the lease can take the row away or move its expiry earlier. Respecting the lease means:
  - other owners act before `until`;
  - the holder does not release;
  - cleans run less than an hour after `until`;
  - the holder's own lock attempts ask for an expiry no earlier than their `now`. `Grant`, the record `lock` builds, always does. Without this condition, a takeover of the holder's own expired row could lower the expiry.

  `GrantedLeaseIsExclusive` applies this to the expiry reported by a successful attempt whose read is current (`Attempt`). When the read is stale, `StaleGrantIsHeld` shows that a reported success is still a held lease, provided the statements between the read and the write respected the lease that was read. `StaleRenewalWithoutRespectIsUnheld` shows that without that proviso a renewal can report success for a row another owner has taken over.

Behaviour the model follows from the code:

- **Empty names are accepted.** The pool and name checks refuse only null and lengths over 64. The interface documentation in `NTLock.java` says names are non-empty; `EmptyNamesAccepted` shows the implementation accepts `""`.
- **Host and IP are only null-checked.** An empty host or IP passes.
- **`lock(NTLockDTO, …)` ignores the DTO's owner.** It checks the owner fields of the DTO it is given, then locks for the local host, IP and thread id.
- **A takeover resets the count.** It writes `times = 1` to the table. The DTO it returns has `times` raised to 2.
- **A renewal reports 2.** The returned DTO has `times = 2` whatever count the table stores. The table's count goes up by exactly one.
- **The renewal update also pins the owner.** Its WHERE clause matches the previously read owner, not only the previously read expiry.
- **A renewal that loses its race still reports success.** It hands back the record as it was read.
- **Sub-millisecond leases start expired.** Timeouts in nanoseconds or microseconds are truncated by `toMillis`. A lease shorter than a millisecond becomes a row that has already expired, and another owner can take it over at the same instant (`SubMillisecondLeaseStartsExpired`).
- **One owner per host, IP and thread id.** Ownership is the triple (host, IP, thread id). Two processes on one host whose threads have the same id count as one owner. The exclusivity theorem is about distinct triples.

## Model

| member | source | states |
|---|---|---|
| `LockApi.ToMillis` | src/main/java/cn/ntopic/lock/impl/NTLockImpl.java:181 | the lease length in milliseconds is never negative. It is zero exactly for nanosecond timeouts under 1,000,000 and microsecond timeouts under 1,000. Finer units truncate to whole milliseconds, and coarser units give at least the timeout itself |
| `LockRecord.LockDTO.constructor` | src/main/java/cn/ntopic/lock/model/NTLockDTO.java:67-74 | pool, name, owner host, owner IP, owner id and expire are stored exactly as given. Size and times start at 1 and modify starts null. The six are `const`, so they never change afterwards |
| `LockRecord.LockDTO.SetSize` | src/main/java/cn/ntopic/lock/model/NTLockDTO.java:121-123 | sets `size` and leaves times and modify unchanged |
| `LockRecord.LockDTO.SetTimes` | src/main/java/cn/ntopic/lock/model/NTLockDTO.java:129-131 | sets `times` and leaves size and modify unchanged |
| `LockRecord.LockDTO.SetModify` | src/main/java/cn/ntopic/lock/model/NTLockDTO.java:137-139 | sets the modify stamp and leaves size and times unchanged |
| `LockOutcome.LockResult.constructor` | src/main/java/cn/ntopic/lock/model/NTLockResult.java:34-37 | stores success and lockDTO as given, with a null message |
| `LockOutcome.LockResult.MakeSuccess` | src/main/java/cn/ntopic/lock/model/NTLockResult.java:42-44 | a new result with success true, `lockDTO == d` and no message |
| `LockOutcome.LockResult.MakeFailure` | src/main/java/cn/ntopic/lock/model/NTLockResult.java:49-51 | a new result with success false, `lockDTO == d` and a null message |
| `LockOutcome.LockResult.MakeFailureWithMessage` | src/main/java/cn/ntopic/lock/model/NTLockResult.java:56-61 | a new result with success false, `lockDTO == d` and `message == m` |
| `LockOutcome.LockResult.SetMessage` | src/main/java/cn/ntopic/lock/model/NTLockResult.java:84-86 | sets `message`, the only mutable field. success and lockDTO are `const` |
| `LockEngine.ReleaseArgsError` | src/main/java/cn/ntopic/lock/impl/NTLockImpl.java:326-345 | no error iff the DTO is non-null, pool and name are non-null and at most 64 long, host and IP are non-null, and id ≥ 0. Otherwise the error names the first failed check, in the order object, pool, name, owner |
| `LockEngine.LockArgsError` | src/main/java/cn/ntopic/lock/impl/NTLockImpl.java:155-178 | the release checks, then the timeout. No error iff all hold and timeout > 0. A bad timeout is reported only when everything else passes |
| `LockEngine.LockNameArgsError` | src/main/java/cn/ntopic/lock/impl/NTLockImpl.java:129-135 | no error iff the name is non-null and at most 64 long and timeout > 0. A bad name is reported before a bad timeout |
| `LockEngine.ReleaseNameArgsError` | src/main/java/cn/ntopic/lock/impl/NTLockImpl.java:308-345 | no error iff the name is non-null and at most 64 long and the local thread id is ≥ 0. The second condition is the re-check done by `release(NTLockDTO)` |
| `LockEngine.TakenOver` | src/main/java/cn/ntopic/lock/impl/NTLockImpl.java:465 | the takeover update gives the row the new owner and expiry with count 1 and the size kept. The set of keys is the same, and every other row is unchanged |
| `LockEngine.Extended` | src/main/java/cn/ntopic/lock/impl/NTLockImpl.java:436 | the renewal update sets the new expiry and raises the count by exactly one, keeping owner and size. Every other row is unchanged |
| `LockEngine.Released` | src/main/java/cn/ntopic/lock/impl/NTLockImpl.java:361 | the owner-pinned delete removes the key only when that owner holds the row, expired or not. Otherwise the table is unchanged, and no surviving row changes |
| `LockEngine.Purged` | src/main/java/cn/ntopic/lock/impl/NTLockImpl.java:560-565 | removes exactly the rows with expire ≤ cutoff. Every other row stays with its value |
| `LockEngine.Lookup` | src/main/java/cn/ntopic/lock/impl/NTLockImpl.java:387-403 | the point read by primary key returns nothing iff no row has the key, and otherwise exactly that row |
| `LockEngine.Decide` | src/main/java/cn/ntopic/lock/impl/NTLockImpl.java:211-270 | a refusal writes nothing and returns the caller's record. Only the row at the key can change. A success reports the caller as owner and has one of two results. Either the caller now owns the stored row, with the reported expiry as the stored one. Or the table is untouched and the record handed back is the caller's own live lease as read |
| `LockEngine.Attempt` | src/main/java/cn/ntopic/lock/impl/NTLockImpl.java:196-281 | a failed read gives failure with the unexpected-error message and no write. A refusal writes nothing and returns the caller's record. Only the row at the key can change. Since the read is current, a success always leaves the caller owning the row, with the stored expiry equal to the reported one |
| `LockEngine.Grant` | src/main/java/cn/ntopic/lock/impl/NTLockImpl.java:138-143 | the record `lock` builds is owned by the local owner, expires no earlier than `now`, and has size 1 and times 1 |
| `LockEngine.LockImpl.constructor` | src/main/java/cn/ntopic/lock/impl/NTLockImpl.java:51-57 | the engine keeps the store it is given |
| `LockEngine.LockImpl.Select` | src/main/java/cn/ntopic/lock/impl/NTLockImpl.java:494-507 | returns nothing iff no row has the key. Otherwise it returns a fresh, fully non-null DTO holding that row's key, owner, expiry, size and count |
| `LockEngine.LockImpl.Insert` | src/main/java/cn/ntopic/lock/impl/NTLockImpl.java:408-428 | succeeds iff the key is free, and then adds the DTO's row. Otherwise (the primary-key violation throws) the table is unchanged |
| `LockEngine.LockImpl.UpdateExpire` | src/main/java/cn/ntopic/lock/impl/NTLockImpl.java:433-457 | updates iff the stored row still has the owner and expiry read before. The row's expiry then advances and its count goes up by one, and `newDto.times` goes up by one. Otherwise table and DTO are unchanged |
| `LockEngine.LockImpl.UpdateTaken` | src/main/java/cn/ntopic/lock/impl/NTLockImpl.java:462-489 | updates iff the stored row still has the owner and expiry read before. The row then gets the new owner and expiry with count 1, and `newDto.times` goes up by one. Otherwise table and DTO are unchanged |
| `LockEngine.LockImpl.TryLockAfterRead` | src/main/java/cn/ntopic/lock/impl/NTLockImpl.java:214-270 | the new table and the reported result (success, record, message) are those of `Decide` on the row read, for any earlier read of the same key. The result carries the new DTO or the DTO read |
| `LockEngine.LockImpl.TryLock` | src/main/java/cn/ntopic/lock/impl/NTLockImpl.java:196-281 | a failed read gives a failure with the unexpected-error message and an unchanged table. Otherwise the result is `Decide` on the current row |
| `LockEngine.LockImpl.LockByName` | src/main/java/cn/ntopic/lock/impl/NTLockImpl.java:124-148 | throws an invalid-argument error iff the name or the timeout check fails, and the table is then untouched. Otherwise it attempts the `DEFAULT` pool for the local owner with expiry `now + toMillis(timeout)` |
| `LockEngine.LockImpl.Lock` | src/main/java/cn/ntopic/lock/impl/NTLockImpl.java:150-191 | throws an invalid-argument error iff a DTO check fails, and the table is then untouched. Otherwise it attempts the DTO's pool and name, but for the local owner and not the DTO's |
| `LockEngine.LockImpl.Release` | src/main/java/cn/ntopic/lock/impl/NTLockImpl.java:323-382 | throws iff a DTO check fails. Otherwise it returns true iff the store did not fail and the DTO's owner held the row. That row, and only that row, is deleted, expired or not. A store failure returns false and changes nothing |
| `LockEngine.LockImpl.ReleaseByName` | src/main/java/cn/ntopic/lock/impl/NTLockImpl.java:305-321 | releases the name in the `DEFAULT` pool for the local owner, with the same result and table as `Release` |
| `LockEngine.CleanThread.constructor` | src/main/java/cn/ntopic/lock/impl/NTLockImpl.java:523-526 | the cleaner keeps the store it is given |
| `LockEngine.CleanThread.Clean` | src/main/java/cn/ntopic/lock/impl/NTLockImpl.java:546-578 | the table becomes the old table without exactly the rows whose expire ≤ now − 1 hour. A store error changes nothing |
| `LockTheory.EmptyNamesAccepted` | src/main/java/cn/ntopic/lock/NTLock.java:38 | names documented as non-empty are not checked for it: `""` passes the lock and release checks |
| `LockTheory.FreshKeyInserts` | src/main/java/cn/ntopic/lock/impl/NTLockImpl.java:214-225 | with no row, the caller's record is inserted with count 1 and expiry `now + toMillis(timeout)`, and success is reported with that record |
| `LockTheory.FailedInsertRefuses` | src/main/java/cn/ntopic/lock/impl/NTLockImpl.java:216-222 | if the insert throws, the result is failure with the insert message and the table is unchanged |
| `LockTheory.ExpiredRowIsTakenOver` | src/main/java/cn/ntopic/lock/impl/NTLockImpl.java:232-237 | an expired row gets the caller's owner and expiry with stored count 1 and the size kept. The reported count is one above the caller's, and all other rows are unchanged |
| `LockTheory.StaleTakeoverIsLost` | src/main/java/cn/ntopic/lock/impl/NTLockImpl.java:240-242 | when the takeover update matches no row, the result is failure with the takeover-lost message and the table is unchanged |
| `LockTheory.LiveForeignRowRefuses` | src/main/java/cn/ntopic/lock/impl/NTLockImpl.java:246-253 | a live row of another owner gives failure and no write, whatever the store does |
| `LockTheory.RenewalExtends` | src/main/java/cn/ntopic/lock/impl/NTLockImpl.java:256-260 | the owner asking for a later expiry gets success. Only that row's expiry advances, and its count goes up by exactly one |
| `LockTheory.StaleRenewalStillHeld` | src/main/java/cn/ntopic/lock/impl/NTLockImpl.java:263-265 | when the renewal update matches no row, the result is still success with the record as read, and nothing is written |
| `LockTheory.RenewalNoLaterIsNoOp` | src/main/java/cn/ntopic/lock/impl/NTLockImpl.java:268-269 | an expiry no later than the stored one gives success with the stored record and an unchanged table |
| `LockTheory.StoreErrorNeverGrantsNewLease` | src/main/java/cn/ntopic/lock/impl/NTLockImpl.java:271-273 | with a store error the table is unchanged. Success is then possible only as the no-op renewal, returning the caller's own stored row |
| `LockTheory.AttemptSucceedsIff` | src/main/java/cn/ntopic/lock/impl/NTLockImpl.java:214-270 | with a working store, an attempt succeeds iff the slot is free, expired, or held by the caller |
| `LockTheory.ReportedCounts` | src/main/java/cn/ntopic/lock/impl/NTLockImpl.java:481-483 | `lock` reports count 1 on insert. On takeover it reports 2 while the table stores 1. On renewal it reports 2 while the table stores its old count plus one |
| `LockTheory.SubMillisecondLeaseStartsExpired` | src/main/java/cn/ntopic/lock/impl/NTLockImpl.java:138 | a sub-millisecond timeout inserts a row expiring at `now`, which another owner can take over at once |
| `LockTheory.LockThenRelease` | src/test/java/cn/ntopic/lock/NTLockTest.java:81-89 | after a successful lock, the same owner's release finds its row and deletes it |
| `LockTheory.StepKeepsLease` | src/main/java/cn/ntopic/lock/impl/NTLockImpl.java:232-269 | one store statement that respects a lease leaves the row with its holder, expiring no earlier |
| `LockTheory.LeaseIsExclusive` | src/main/java/cn/ntopic/lock/impl/NTLockImpl.java:232-269 | over any trace of lock writes (after reads however stale), releases and cleans that respect the lease, the holder keeps the row and its expiry never drops below `until` |
| `LockTheory.GrantedLeaseIsExclusive` | src/main/java/cn/ntopic/lock/impl/NTLockImpl.java:196-281 | the lease reported by a successful attempt on a current read stays with the caller, with at least the reported expiry, over every later trace that respects it |
| `LockTheory.StaleGrantIsHeld` | src/main/java/cn/ntopic/lock/impl/NTLockImpl.java:212-269 | when the statements run between the read and the write respect the lease the caller read, a reported success leaves the caller owning the row with an expiry no earlier than the one reported, including the renewal that lost its race and hands back the lease as read |
| `LockTheory.StaleRenewalWithoutRespectIsUnheld` | src/main/java/cn/ntopic/lock/impl/NTLockImpl.java:262-265 | a renewal whose read was overtaken by another owner's takeover still reports success while the other owner holds the row, so the proviso of `StaleGrantIsHeld` is needed |
| `LockTheory.RunKeepsWellFormed` | src/main/java/cn/ntopic/lock/impl/NTLockImpl.java:408-489 | every trace keeps every row at size 1 and count ≥ 1 |

## Left out

- JDBC plumbing is not modelled: connections, auto-commit handling, statement closing, `createTable` and its DDL. The table is the map in `Store`. A store error is an argument that makes the statement throw without effect.
- The constructor's null check on the data source is not modelled. `Store` is a non-null reference by type.
- Configuration is not modelled: `tableName`, `autoClean` and `init`, which starts the cleaner thread.
- `NTLockCleanThread.run` is not modelled. Its endless loop, its one-hour sleep and its catch-all are scheduling. Only `clean` is modelled.
- `lockPool` is not modelled. The source leaves it unimplemented: it returns null after its argument checks.
- Host and thread identity are parameters (`local: Owner`). `NTHostUtils` and the thread id are not modelled.
- Timestamps are integer milliseconds; the `yyyy-MM-dd HH:mm:ss.SSS` text form is not modelled. The source compares these strings in `clean` (`expire<=?`) and in the WHERE clauses. The model assumes that text order is time order, which can fail across a daylight-saving fold in the local time zone.
- The `modify` stamp is not written by the engine, and `Row` has no `modify` column. It is observability only. The DTO field `modifyTime` (renamed because `modify` is a Dafny keyword) and `SetModify` are modelled.
- Logging is not modelled. The thrown exception's own message text, which the insert-failure message includes, is not modelled either.
- Message wording is not modelled. Failure messages are `Reason` values: the message kind and the values formatted into it.
- Integer widths are not modelled: `times` and `size` (Java `int` and SQL `INT`), owner id and `now + millis` (Java `long`). Overflow needs more than 2^31 renewals or instants near `Long.MAX_VALUE`.
- A null `TimeUnit` is not modelled: `TimeUnit` is never null in the model. In the source it passes the checks of both `lock` overloads and then throws `NullPointerException` at `timeUnit.toMillis`, outside `tryLock`'s catch, rather than the documented `IllegalArgumentException`.
- The database's string collation is not modelled. Keys and owners are compared by exact equality, while the primary key and the WHERE clauses compare by the database's collation, which in some databases ignores case or trailing spaces.
- Column widths are not modelled. `own_host` and `own_ip` are `VARCHAR(64)`, and a longer host name or IP fails the insert or is truncated, depending on the database. The model stores strings of any length; the 64-character checks on pool and name are modelled.
- String lengths count characters, not UTF-16 code units as `String.length()` does.
- Threads and clocks are not modelled directly. Concurrency appears as stale reads (`TryLockAfterRead`, `Step.Acquire`). The exclusivity theorem takes each step's `now` as given and assumes nothing about clock skew between hosts.
- The multi-threaded tests exercise a real SQLite database. Only their sequential lock-then-release expectation is stated (`LockThenRelease`).
