/**
 * Properties of the lock decision: one lemma per branch of `tryLock`, the
 * quirks of the counts it reports, and, over any sequence of store
 * statements from any number of processes, that a lease stays with its
 * holder until it expires.
 */
module LockTheory {
  import opened Wrappers
  import opened LockApi
  import opened LockOutcome
  import opened LockEngine

  // ---------------------------------------------------------------------
  // Argument checks.

  /**
   * The interface documents names as non-empty, but only null and length
   * over 64 are refused: empty names and pools are accepted.
   */
  lemma EmptyNamesAccepted(local: Owner, timeout: int32)
    requires timeout > 0 && local.id >= 0
    ensures LockNameArgsError(Some(""), timeout).None?
    ensures ReleaseNameArgsError(Some(""), local).None?
  {
  }

  // ---------------------------------------------------------------------
  // One attempt, branch by branch.

  /** No row: the caller's record is inserted with count 1 and reported held. */
  lemma FreshKeyInserts(t: Table, now: int, key: Key, local: Owner, timeout: int32, unit: TimeUnit)
    requires key !in t && timeout > 0
    ensures var mine := Grant(local, now, timeout, unit);
            var o := Attempt(t, now, key, mine, NoFault);
            && o.success && o.record == mine && o.record.times == 1
            && o.table == t[key := mine] && o.table[key].expire == now + ToMillis(timeout, unit)
  {
  }

  /** No row seen, but the insert throws (primary key taken by now, or a store error): refused, table unchanged. */
  lemma FailedInsertRefuses(t: Table, now: int, key: Key, mine: Row, writeThrows: bool)
    requires key in t || writeThrows
    ensures var o := Decide(t, now, key, mine, None, writeThrows);
            !o.success && o.table == t && o.message == Some(InsertFailed(key.pool, key.name))
  {
  }

  /**
   * An expired row is taken over: new owner and expiry, stored count reset
   * to 1, while the reported record says one more than the caller's count.
   */
  lemma ExpiredRowIsTakenOver(t: Table, now: int, key: Key, mine: Row)
    requires key in t && t[key].expire <= now
    ensures var o := Attempt(t, now, key, mine, NoFault);
            && o.success && o.table[key] == Row(mine.owner, mine.expire, t[key].size, 1)
            && o.record == mine.(times := mine.times + 1)
            && forall k :: k in t && k != key ==> o.table[k] == t[k]
  {
  }

  /** The takeover update matches no row (the row changed since it was read): refused, table unchanged. */
  lemma StaleTakeoverIsLost(t: Table, now: int, key: Key, mine: Row, seen: Row)
    requires seen.expire <= now && !Pinned(t, key, seen)
    ensures var o := Decide(t, now, key, mine, Some(seen), false);
            !o.success && o.table == t && o.message == Some(TakeoverLost)
  {
  }

  /** A live row of another owner: refused naming that owner, and nothing is written, whatever the store does. */
  lemma LiveForeignRowRefuses(t: Table, now: int, key: Key, mine: Row, fault: Fault)
    requires key in t && t[key].expire > now && t[key].owner != mine.owner
    ensures var o := Attempt(t, now, key, mine, fault);
            !o.success && o.table == t && o.record == mine
  {
  }

  /** The owner renews to a later expiry: the stored expiry advances and the stored count goes up by exactly 1. */
  lemma RenewalExtends(t: Table, now: int, key: Key, mine: Row)
    requires key in t && t[key].expire > now && t[key].owner == mine.owner && mine.expire > t[key].expire
    ensures var o := Attempt(t, now, key, mine, NoFault);
            && o.success && o.table == t[key := t[key].(expire := mine.expire, times := t[key].times + 1)]
            && o.record == mine.(times := mine.times + 1)
  {
  }

  /** The renewal update matches no row: still reported held, with the record as read, and nothing written. */
  lemma StaleRenewalStillHeld(t: Table, now: int, key: Key, mine: Row, seen: Row)
    requires seen.expire > now && seen.owner == mine.owner && mine.expire > seen.expire && !Pinned(t, key, seen)
    ensures var o := Decide(t, now, key, mine, Some(seen), false);
            o.success && o.record == seen && o.table == t
  {
  }

  /** The owner asks for an expiry no later than the stored one: held, the stored record returned, nothing written. */
  lemma RenewalNoLaterIsNoOp(t: Table, now: int, key: Key, mine: Row, fault: Fault)
    requires key in t && t[key].expire > now && t[key].owner == mine.owner && mine.expire <= t[key].expire
    requires !fault.ReadThrows?
    ensures var o := Attempt(t, now, key, mine, fault);
            o.success && o.record == t[key] && o.table == t
  {
  }

  /** A failed read or write never reports the lock held unless nothing had to be written. */
  lemma StoreErrorNeverGrantsNewLease(t: Table, now: int, key: Key, mine: Row, fault: Fault)
    requires fault != NoFault
    ensures var o := Attempt(t, now, key, mine, fault);
            o.table == t && (o.success ==> key in t && o.record == t[key] && t[key].owner == mine.owner)
  {
  }

  /**
   * With a store that does not fail, an attempt succeeds exactly when the
   * slot is free, expired, or already the caller's.
   */
  lemma AttemptSucceedsIff(t: Table, now: int, key: Key, mine: Row)
    ensures Attempt(t, now, key, mine, NoFault).success
            <==> key !in t || t[key].expire <= now || t[key].owner == mine.owner
  {
  }

  /**
   * The counts `lock` reports: 1 on insert; 2 on takeover, though the table
   * holds 1; 2 on renewal, whatever the table holds.
   */
  lemma ReportedCounts(t: Table, now: int, key: Key, local: Owner, timeout: int32, unit: TimeUnit)
    requires timeout > 0
    ensures var o := Attempt(t, now, key, Grant(local, now, timeout, unit), NoFault);
            && (key !in t ==> o.record.times == 1 && o.table[key].times == 1)
            && (key in t && t[key].expire <= now ==> o.record.times == 2 && o.table[key].times == 1)
            && (key in t && t[key].expire > now && t[key].owner == local && now + ToMillis(timeout, unit) > t[key].expire
                ==> o.record.times == 2 && o.table[key].times == t[key].times + 1)
  {
  }

  /**
   * A lease shorter than a millisecond is truncated to none: the row is
   * written already expired, and any other owner takes it over at once.
   */
  lemma SubMillisecondLeaseStartsExpired(t: Table, now: int, key: Key, local: Owner, other: Owner,
                                         timeout: int32, unit: TimeUnit)
    requires key !in t && timeout > 0
    requires (unit.Nanoseconds? && timeout < 1_000_000) || (unit.Microseconds? && timeout < 1_000)
    ensures var o := Attempt(t, now, key, Grant(local, now, timeout, unit), NoFault);
            && o.success && o.table[key].expire == now
            && Attempt(o.table, now, key, Row(other, now + 1, 1, 1), NoFault).success
  {
  }

  /** Lock then release by the same owner: the release deletes the row (true) and nothing else. */
  lemma LockThenRelease(t: Table, now: int, key: Key, mine: Row, fault: Fault)
    requires Attempt(t, now, key, mine, fault).success
    ensures var o := Attempt(t, now, key, mine, fault);
            && OwnedBy(o.table, key, mine.owner)
            && Released(o.table, key, mine.owner) == o.table - {key}
            && key !in Released(o.table, key, mine.owner)
  {
  }

  // ---------------------------------------------------------------------
  // Any interleaving of store statements.

  /**
   * One atomic store statement by some process. `Acquire` is the write of a
   * lock attempt (or its absence) after that process read `found`, possibly
   * long before; a statement that throws changes nothing and is left out.
   */
  datatype Step =
    | Acquire(now: int, key: Key, owner: Owner, expire: int, found: Option<Row>)
    | DeleteOwned(key: Key, owner: Owner)
    | Purge(now: int)

  /** The table after statement `s`. */
  function Apply(t: Table, s: Step): (t': Table) {
    match s
    case Acquire(now, key, owner, expire, found) => Decide(t, now, key, Row(owner, expire, 1, 1), found, false).table
    case DeleteOwned(key, owner) => Released(t, key, owner)
    case Purge(now) => Purged(t, now - HOUR_MS)
  }

  /** The table after the statements `steps`, in order. */
  function Run(t: Table, steps: seq<Step>): (t': Table)
    decreases |steps|
  {
    if steps == [] then t else Run(Apply(t, steps[0]), steps[1..])
  }

  /**
   * Step `s` plays by the rules for the lease of `holder` on `key` until
   * `until`: another owner's attempt on `key` runs before `until`; the
   * holder's own attempt asks for an expiry no earlier than its clock; no
   * release of `key` by the holder; a clean runs less than an hour past `until`.
   */
  predicate Respects(s: Step, key: Key, holder: Owner, until: int) {
    match s
    case Acquire(now, k, owner, expire, _) => k == key ==> if owner == holder then expire >= now else now < until
    case DeleteOwned(k, owner) => k == key ==> owner != holder
    case Purge(now) => now - HOUR_MS < until
  }

  /** One step that respects the lease keeps the row with the holder, expiring no earlier than `until`. */
  lemma StepKeepsLease(t: Table, s: Step, key: Key, holder: Owner, until: int)
    requires OwnedBy(t, key, holder) && t[key].expire >= until
    requires Respects(s, key, holder, until)
    ensures OwnedBy(Apply(t, s), key, holder) && Apply(t, s)[key].expire >= until
  {
    match s
    case Acquire(now, k, owner, expire, found) =>
      if k == key && found.Some? && found.value.expire <= now {
        // A takeover needs the stored expiry to be the one read, at or before `now`.
        assert Pinned(t, key, found.value) ==> owner == holder;
      }
    case DeleteOwned(k, owner) =>
    case Purge(now) =>
  }

  /**
   * Lease exclusivity: once `holder` owns the row at `key` with expiry at
   * least `until`, no sequence of statements that respects the lease, with
   * reads however stale, takes the row from it or moves its expiry earlier.
   */
  lemma {:induction false} LeaseIsExclusive(t: Table, steps: seq<Step>, key: Key, holder: Owner, until: int)
    requires OwnedBy(t, key, holder) && t[key].expire >= until
    requires forall i | 0 <= i < |steps| :: Respects(steps[i], key, holder, until)
    ensures OwnedBy(Run(t, steps), key, holder) && Run(t, steps)[key].expire >= until
    decreases |steps|
  {
    if steps != [] {
      StepKeepsLease(t, steps[0], key, holder, until);
      assert forall i | 0 <= i < |steps[1..]| :: Respects(steps[1..][i], key, holder, until) by {
        forall i | 0 <= i < |steps[1..]| ensures Respects(steps[1..][i], key, holder, until) {
          assert steps[1..][i] == steps[i + 1];
        }
      }
      LeaseIsExclusive(Apply(t, steps[0]), steps[1..], key, holder, until);
    }
  }

  /**
   * A granted lease is exclusive until the expiry it reports: after a
   * successful attempt, any later statements that respect that lease leave
   * the row with the caller.
   */
  lemma GrantedLeaseIsExclusive(t: Table, now: int, key: Key, mine: Row, fault: Fault, steps: seq<Step>)
    requires Attempt(t, now, key, mine, fault).success
    requires forall i | 0 <= i < |steps| ::
               Respects(steps[i], key, mine.owner, Attempt(t, now, key, mine, fault).record.expire)
    ensures var o := Attempt(t, now, key, mine, fault);
            OwnedBy(Run(o.table, steps), key, mine.owner) && Run(o.table, steps)[key].expire >= o.record.expire
  {
    var o := Attempt(t, now, key, mine, fault);
    LeaseIsExclusive(o.table, steps, key, mine.owner, o.record.expire);
  }

  /**
   * A success after a stale read. `tryLock` reads the row at `t0`; the
   * statements `between` of other processes run; then its write decides on
   * what it read. If the caller held the row when it read it, and `between`
   * respected that lease, a reported success is still a held lease: the
   * caller owns the row, expiring no earlier than the record reported. This
   * covers the renewal whose update matched no row, which reports the lease
   * as read.
   */
  lemma StaleGrantIsHeld(t0: Table, between: seq<Step>, now: int, key: Key, mine: Row, writeThrows: bool)
    requires key in t0 && t0[key].owner == mine.owner ==>
               forall i | 0 <= i < |between| :: Respects(between[i], key, mine.owner, t0[key].expire)
    requires Decide(Run(t0, between), now, key, mine, Lookup(t0, key), writeThrows).success
    ensures var o := Decide(Run(t0, between), now, key, mine, Lookup(t0, key), writeThrows);
            OwnedBy(o.table, key, mine.owner) && o.table[key].expire >= o.record.expire
  {
    var o := Decide(Run(t0, between), now, key, mine, Lookup(t0, key), writeThrows);
    if !OwnedBy(o.table, key, mine.owner) || o.table[key].expire != o.record.expire {
      // Only the no-write branches remain: the record is the caller's lease as read.
      LeaseIsExclusive(t0, between, key, mine.owner, t0[key].expire);
    }
  }

  /**
   * Without that condition the reported success can be wrong: the caller
   * read its own lease expiring at 100, paused, and by the time its renewal
   * ran another owner had taken the row over; the renewal matches no row and
   * still reports success.
   */
  lemma StaleRenewalWithoutRespectIsUnheld()
    ensures var key := Key("DEFAULT", "job");
            var a, b := Owner("a", "10.0.0.1", 1), Owner("b", "10.0.0.2", 1);
            var t0 := map[key := Row(a, 100, 1, 1)];
            var between := [Acquire(150, key, b, 200, Some(Row(a, 100, 1, 1)))];
            var o := Decide(Run(t0, between), 50, key, Row(a, 150, 1, 1), Lookup(t0, key), false);
            o.success && !OwnedBy(o.table, key, a) && !Respects(between[0], key, a, 100)
  {
  }

  /** Every row has pool size 1 and a count of at least 1. */
  ghost predicate WellFormed(t: Table) {
    forall k | k in t :: t[k].size == 1 && t[k].times >= 1
  }

  /** Every statement keeps the table well formed, so every run from an empty table does. */
  lemma {:induction false} RunKeepsWellFormed(t: Table, steps: seq<Step>)
    requires WellFormed(t)
    ensures WellFormed(Run(t, steps))
    decreases |steps|
  {
    if steps != [] {
      var t1 := Apply(t, steps[0]);
      assert WellFormed(t1);
      RunKeepsWellFormed(t1, steps[1..]);
    }
  }
}
