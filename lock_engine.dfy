/**
 * The lease-lock engine over one shared table keyed by (pool, name).
 *
 * The table is a map held by `Store`, the stand-in for the data source both
 * the engine and the expiry cleaner use. Every write is one conditional
 * statement: an insert that the primary key guards, an update whose WHERE
 * clause pins the values read before, or a delete. Time is an integer
 * number of milliseconds, read once per call and passed in as `now`. A store
 * error is a `Fault` (or `throws`) argument; a statement that throws changes
 * nothing.
 */
module LockEngine {
  import opened Wrappers
  import opened LockApi
  import opened LockRecord
  import opened LockOutcome

  /** Primary key of the lock table. */
  datatype Key = Key(pool: string, name: string)

  /** The holder of a lease: host name, IP address and thread id. */
  datatype Owner = Owner(host: string, ip: string, id: int)

  /** The columns of a row besides its key (the `modify` stamp is not modelled). */
  datatype Row = Row(owner: Owner, expire: int, size: int, times: int)

  type Table = map<Key, Row>

  /** Where a lock attempt meets a store error, if anywhere. */
  datatype Fault = NoFault | ReadThrows | WriteThrows

  /**
   * What a lock attempt does: whether it reports the lock held, the record it
   * hands back, its failure message, and the table afterwards.
   */
  datatype Outcome = Outcome(success: bool, record: Row, message: Option<Reason>, table: Table)

  // ---------------------------------------------------------------------
  // Argument checks. Only null and over-long names are refused: an empty
  // pool or name passes.

  predicate ValidPool(pool: Option<string>) {
    pool.Some? && |pool.value| <= MAX_POOL_LENGTH
  }

  predicate ValidName(name: Option<string>) {
    name.Some? && |name.value| <= MAX_NAME_LENGTH
  }

  predicate ValidOwner(host: Option<string>, ip: Option<string>, id: int) {
    host.Some? && ip.Some? && id >= 0
  }

  /** The checks `release(NTLockDTO)` makes, in order: the object, pool, name, owner. */
  function ReleaseArgsError(d: LockDTO?): (e: Option<ArgError>)
    ensures e.None? <==> d != null && ValidPool(d.pool) && ValidName(d.name) && ValidOwner(d.ownHost, d.ownIp, d.ownId)
    ensures e == Some(NullLockDTO) <==> d == null
    ensures e == Some(BadPool) <==> d != null && !ValidPool(d.pool)
    ensures e == Some(BadName) <==> d != null && ValidPool(d.pool) && !ValidName(d.name)
    ensures e == Some(BadOwner) <==> d != null && ValidPool(d.pool) && ValidName(d.name) && !ValidOwner(d.ownHost, d.ownIp, d.ownId)
  {
    if d == null then Some(NullLockDTO)
    else if d.pool.None? || |d.pool.value| > MAX_POOL_LENGTH then Some(BadPool)
    else if d.name.None? || |d.name.value| > MAX_NAME_LENGTH then Some(BadName)
    else if d.ownHost.None? || d.ownIp.None? || d.ownId < 0 then Some(BadOwner)
    else None
  }

  /** The checks `lock(NTLockDTO, ...)` makes: those of release, then the timeout. */
  function LockArgsError(d: LockDTO?, timeout: int32): (e: Option<ArgError>)
    ensures e.None? <==> d != null && ValidPool(d.pool) && ValidName(d.name) && ValidOwner(d.ownHost, d.ownIp, d.ownId) && timeout > 0
    ensures e == Some(BadTimeout) <==> ReleaseArgsError(d).None? && timeout <= 0
    ensures ReleaseArgsError(d).Some? ==> e == ReleaseArgsError(d)
  {
    var target := ReleaseArgsError(d);
    if target.Some? then target
    else if timeout <= 0 then Some(BadTimeout)
    else None
  }

  /** The checks `lock(String, ...)` makes: the name, then the timeout. */
  function LockNameArgsError(lockName: Option<string>, timeout: int32): (e: Option<ArgError>)
    ensures e.None? <==> ValidName(lockName) && timeout > 0
    ensures e == Some(BadName) <==> !ValidName(lockName)
    ensures e == Some(BadTimeout) <==> ValidName(lockName) && timeout <= 0
  {
    if lockName.None? || |lockName.value| > MAX_NAME_LENGTH then Some(BadName)
    else if timeout <= 0 then Some(BadTimeout)
    else None
  }

  /**
   * The checks `release(String)` makes: the name, then, through
   * `release(NTLockDTO)`, the local owner it fills in.
   */
  function ReleaseNameArgsError(lockName: Option<string>, local: Owner): (e: Option<ArgError>)
    ensures e.None? <==> ValidName(lockName) && local.id >= 0
    ensures e == Some(BadName) <==> !ValidName(lockName)
    ensures e == Some(BadOwner) <==> ValidName(lockName) && local.id < 0
  {
    if lockName.None? || |lockName.value| > MAX_NAME_LENGTH then Some(BadName)
    else if local.id < 0 then Some(BadOwner)
    else None
  }

  // ---------------------------------------------------------------------
  // The table statements and the lock decision, on values.

  /** The row at `key` belongs to `owner`, expired or not: the WHERE clause of release. */
  predicate OwnedBy(t: Table, key: Key, owner: Owner) {
    key in t && t[key].owner == owner
  }

  /**
   * The row at `key` still has the owner and expiry of `seen`, a row read
   * earlier: the WHERE clause of both conditional updates.
   */
  predicate Pinned(t: Table, key: Key, seen: Row) {
    key in t && t[key].owner == seen.owner && t[key].expire == seen.expire
  }

  /** The takeover update: new owner and expiry, count reset to 1, size kept. */
  function TakenOver(t: Table, key: Key, owner: Owner, expire: int): (t': Table)
    requires key in t
    ensures t'.Keys == t.Keys
    ensures t'[key] == Row(owner, expire, t[key].size, 1)
    ensures forall k :: k in t && k != key ==> t'[k] == t[k]
  {
    t[key := t[key].(owner := owner, expire := expire, times := 1)]
  }

  /** The renewal update: later expiry, count one higher, owner and size kept. */
  function Extended(t: Table, key: Key, expire: int): (t': Table)
    requires key in t
    ensures t'.Keys == t.Keys
    ensures t'[key] == Row(t[key].owner, expire, t[key].size, t[key].times + 1)
    ensures forall k :: k in t && k != key ==> t'[k] == t[k]
  {
    t[key := t[key].(expire := expire, times := t[key].times + 1)]
  }

  /** The release delete: removes the row at `key` only when `owner` holds it, live or expired. */
  function Released(t: Table, key: Key, owner: Owner): (t': Table)
    ensures OwnedBy(t, key, owner) ==> t'.Keys == t.Keys - {key}
    ensures !OwnedBy(t, key, owner) ==> t' == t
    ensures forall k :: k in t' ==> k in t && t'[k] == t[k]
  {
    if OwnedBy(t, key, owner) then t - {key} else t
  }

  /** The cleaner's delete: removes exactly the rows that expired at or before `cutoff`. */
  function Purged(t: Table, cutoff: int): (t': Table)
    ensures forall k :: k in t' <==> k in t && t[k].expire > cutoff
    ensures forall k :: k in t' ==> t'[k] == t[k]
  {
    map k | k in t && t[k].expire > cutoff :: t[k]
  }

  /** The row a point lookup by primary key returns. */
  function Lookup(t: Table, key: Key): (found: Option<Row>)
    ensures found.None? <==> key !in t
    ensures found.Some? ==> key in t && found.value == t[key]
  {
    if key in t then Some(t[key]) else None
  }

  /**
   * The part of `tryLock` after its read. `mine` is the caller's new record
   * (owner, requested expiry, size, count); `found` is what the read returned,
   * which may no longer be what the table holds; `writeThrows` says the one
   * write statement throws. The contract: a refusal never writes; only the
   * row at `key` can change; a success either leaves the caller owning that
   * row with its new expiry, or hands back the caller's own live lease as read.
   */
  function Decide(t: Table, now: int, key: Key, mine: Row, found: Option<Row>, writeThrows: bool): (o: Outcome)
    ensures !o.success ==> o.table == t && o.record == mine
    ensures forall k :: k != key ==> (k in o.table <==> k in t)
    ensures forall k :: k != key && k in t ==> o.table[k] == t[k]
    ensures o.success ==> o.record.owner == mine.owner
    ensures o.success ==>
      || (OwnedBy(o.table, key, mine.owner) && o.table[key].expire == mine.expire == o.record.expire)
      || (found == Some(o.record) && o.record.expire > now && o.table == t)
  {
    match found
    case None =>
      // No row was seen: insert; the primary key refuses it if a row exists by now.
      if writeThrows || key in t then Outcome(false, mine, Some(InsertFailed(key.pool, key.name)), t)
      else Outcome(true, mine, None, t[key := mine])
    case Some(exist) =>
      if exist.expire <= now then
        // Expired: take over, provided the row still has the owner and expiry seen.
        if writeThrows then Outcome(false, mine, Some(Unexpected(key.pool, key.name)), t)
        else if Pinned(t, key, exist) then
          Outcome(true, mine.(times := mine.times + 1), None, TakenOver(t, key, mine.owner, mine.expire))
        else Outcome(false, mine, Some(TakeoverLost), t)
      else if exist.owner != mine.owner then
        // A live lease of someone else is never contested.
        Outcome(false, mine, Some(HeldBy(exist.owner.host, exist.owner.ip, exist.owner.id, exist.expire)), t)
      else if mine.expire > exist.expire then
        // Renewal to a later expiry; a lost race still reports the lease held.
        if writeThrows then Outcome(false, mine, Some(Unexpected(key.pool, key.name)), t)
        else if Pinned(t, key, exist) then
          Outcome(true, mine.(times := mine.times + 1), None, Extended(t, key, mine.expire))
        else Outcome(true, exist, None, t)
      else
        // Renewal to an expiry no later than the stored one: nothing to write.
        Outcome(true, exist, None, t)
  }

  /**
   * A whole `tryLock`: read the row at `key`, then decide. A failed read is
   * an unexpected error that writes nothing; a refusal writes nothing; only
   * the row at `key` can change; and since the read is current, a success
   * always leaves the caller owning that row with the expiry it reports.
   */
  function Attempt(t: Table, now: int, key: Key, mine: Row, fault: Fault): (o: Outcome)
    ensures fault.ReadThrows? ==> !o.success && o.table == t && o.message == Some(Unexpected(key.pool, key.name))
    ensures !o.success ==> o.table == t && o.record == mine
    ensures forall k :: k != key ==> (k in o.table <==> k in t)
    ensures forall k :: k != key && k in t ==> o.table[k] == t[k]
    ensures o.success ==> OwnedBy(o.table, key, mine.owner) && o.table[key].expire == o.record.expire
  {
    if fault.ReadThrows? then Outcome(false, mine, Some(Unexpected(key.pool, key.name)), t)
    else Decide(t, now, key, mine, Lookup(t, key), fault.WriteThrows?)
  }

  /** The record `lock` builds for the caller: lease `timeout` in `unit` from `now`, size and count 1. */
  function Grant(local: Owner, now: int, timeout: int32, unit: TimeUnit): (mine: Row)
    requires timeout > 0
    ensures mine.owner == local && mine.expire >= now && mine.size == 1 && mine.times == 1
  {
    Row(local, now + ToMillis(timeout, unit), 1, 1)
  }

  // ---------------------------------------------------------------------
  // Objects.

  /** Every string field of a DTO is non-null, as in a row of the table. */
  predicate Complete(d: LockDTO) {
    d.pool.Some? && d.name.Some? && d.ownHost.Some? && d.ownIp.Some?
  }

  function KeyOf(d: LockDTO): (key: Key)
    requires d.pool.Some? && d.name.Some?
  {
    Key(d.pool.value, d.name.value)
  }

  function OwnerOf(d: LockDTO): (owner: Owner)
    requires d.ownHost.Some? && d.ownIp.Some?
  {
    Owner(d.ownHost.value, d.ownIp.value, d.ownId)
  }

  function RowOf(d: LockDTO): (row: Row)
    reads d
    requires Complete(d)
  {
    Row(OwnerOf(d), d.expire, d.size, d.times)
  }

  /** `d` holds the key and row given. */
  ghost predicate Shows(d: LockDTO, key: Key, row: Row)
    reads d
  {
    && d.pool == Some(key.pool) && d.name == Some(key.name)
    && d.ownHost == Some(row.owner.host) && d.ownIp == Some(row.owner.ip) && d.ownId == row.owner.id
    && d.expire == row.expire && d.size == row.size && d.times == row.times
  }

  /** `r` reports outcome `o` of an attempt on `key`. */
  ghost predicate Reports(r: LockResult, key: Key, o: Outcome)
    reads r, r.lockDTO
  {
    && r.success == o.success && r.message == o.message
    && r.lockDTO != null && Shows(r.lockDTO, key, o.record)
  }

  /** The shared lock table. */
  class Store {
    var rows: Table

    constructor (rows: Table)
      ensures this.rows == rows
    {
      this.rows := rows;
    }
  }

  class LockImpl {
    const store: Store

    constructor (store: Store)
      ensures this.store == store
    {
      this.store := store;
    }

    /** `select` and `makeLockDTO`: a fresh DTO for the row at `key`, if any. */
    method Select(key: Key) returns (found: Option<LockDTO>)
      ensures found.None? <==> key !in store.rows
      ensures found.Some? ==> fresh(found.value) && Complete(found.value) && Shows(found.value, key, store.rows[key])
    {
      if key !in store.rows {
        return None;
      }
      var row := store.rows[key];
      var d := new LockDTO(Some(key.pool), Some(key.name), Some(row.owner.host), Some(row.owner.ip),
                           row.owner.id, row.expire);
      d.SetSize(row.size);
      d.SetTimes(row.times);
      found := Some(d);
    }

    /** `insert`: adds the row of `newDto`; `ok` is false when the primary key is taken (the insert throws). */
    method Insert(newDto: LockDTO) returns (ok: bool)
      requires Complete(newDto)
      modifies store
      ensures ok <==> KeyOf(newDto) !in old(store.rows)
      ensures store.rows == if ok then old(store.rows)[KeyOf(newDto) := RowOf(newDto)] else old(store.rows)
    {
      var key := KeyOf(newDto);
      ok := key !in store.rows;
      if ok {
        store.rows := store.rows[key := RowOf(newDto)];
      }
    }

    /**
     * `updateExpire`: extends the row only while it still has the owner and
     * expiry of `exist`; on success the stored count and `newDto.times` each
     * go up by one.
     */
    method UpdateExpire(newDto: LockDTO, exist: LockDTO) returns (updated: bool)
      requires Complete(newDto) && Complete(exist)
      modifies store, newDto`times
      ensures updated <==> Pinned(old(store.rows), KeyOf(newDto), old(RowOf(exist)))
      ensures store.rows == if updated then Extended(old(store.rows), KeyOf(newDto), newDto.expire) else old(store.rows)
      ensures newDto.times == if updated then old(newDto.times) + 1 else old(newDto.times)
    {
      var key := KeyOf(newDto);
      updated := Pinned(store.rows, key, RowOf(exist));
      if updated {
        store.rows := Extended(store.rows, key, newDto.expire);
        newDto.SetTimes(newDto.times + 1);
      }
    }

    /**
     * `updateTaken`: gives the row to the owner of `newDto` only while it
     * still has the owner and expiry of `exist`; the stored count becomes 1,
     * while `newDto.times` goes up by one.
     */
    method UpdateTaken(newDto: LockDTO, exist: LockDTO) returns (updated: bool)
      requires Complete(newDto) && Complete(exist)
      modifies store, newDto`times
      ensures updated <==> Pinned(old(store.rows), KeyOf(newDto), old(RowOf(exist)))
      ensures store.rows == if updated then TakenOver(old(store.rows), KeyOf(newDto), OwnerOf(newDto), newDto.expire)
                            else old(store.rows)
      ensures newDto.times == if updated then old(newDto.times) + 1 else old(newDto.times)
    {
      var key := KeyOf(newDto);
      updated := Pinned(store.rows, key, RowOf(exist));
      if updated {
        store.rows := TakenOver(store.rows, key, OwnerOf(newDto), newDto.expire);
        newDto.SetTimes(newDto.times + 1);
      }
    }

    /**
     * `tryLock` after its read: `found` is the DTO the read produced, which
     * may be stale. The outcome is `Decide` on the old table.
     */
    method TryLockAfterRead(now: int, newDto: LockDTO, found: Option<LockDTO>, writeThrows: bool)
      returns (r: LockResult)
      requires Complete(newDto)
      requires found.Some? ==> Complete(found.value) && KeyOf(found.value) == KeyOf(newDto) && found.value != newDto
      modifies store, newDto`times
      ensures fresh(r)
      ensures r.lockDTO == newDto || (found.Some? && r.lockDTO == found.value)
      ensures var o := Decide(old(store.rows), now, KeyOf(newDto), old(RowOf(newDto)),
                              if found.Some? then Some(old(RowOf(found.value))) else None, writeThrows);
              store.rows == o.table && Reports(r, KeyOf(newDto), o)
    {
      var key := KeyOf(newDto);
      if found.None? {
        var ok := false;
        if !writeThrows {
          ok := Insert(newDto);
        }
        if ok {
          r := LockResult.MakeSuccess(newDto);
        } else {
          r := LockResult.MakeFailureWithMessage(newDto, Some(InsertFailed(key.pool, key.name)));
        }
        return;
      }
      var exist := found.value;
      if exist.expire <= now {
        if writeThrows {
          r := LockResult.MakeFailureWithMessage(newDto, Some(Unexpected(key.pool, key.name)));
          return;
        }
        var taken := UpdateTaken(newDto, exist);
        if taken {
          r := LockResult.MakeSuccess(newDto);
        } else {
          r := LockResult.MakeFailureWithMessage(newDto, Some(TakeoverLost));
        }
      } else if exist.ownHost != newDto.ownHost || exist.ownIp != newDto.ownIp || exist.ownId != newDto.ownId {
        r := LockResult.MakeFailureWithMessage(newDto,
               Some(HeldBy(exist.ownHost.value, exist.ownIp.value, exist.ownId, exist.expire)));
      } else if newDto.expire > exist.expire {
        if writeThrows {
          r := LockResult.MakeFailureWithMessage(newDto, Some(Unexpected(key.pool, key.name)));
          return;
        }
        var extended := UpdateExpire(newDto, exist);
        if extended {
          r := LockResult.MakeSuccess(newDto);
        } else {
          r := LockResult.MakeSuccess(exist);
        }
      } else {
        r := LockResult.MakeSuccess(exist);
      }
    }

    /** `tryLock`: read the row for the key of `newDto`, then act on what was read. */
    method TryLock(now: int, newDto: LockDTO, fault: Fault) returns (r: LockResult)
      requires Complete(newDto)
      modifies store, newDto`times
      ensures fresh(r)
      ensures var o := Attempt(old(store.rows), now, KeyOf(newDto), old(RowOf(newDto)), fault);
              store.rows == o.table && Reports(r, KeyOf(newDto), o)
    {
      var key := KeyOf(newDto);
      if fault.ReadThrows? {
        r := LockResult.MakeFailureWithMessage(newDto, Some(Unexpected(key.pool, key.name)));
        return;
      }
      var found := Select(key);
      assert found.Some? ==> RowOf(found.value) == store.rows[key];
      r := TryLockAfterRead(now, newDto, found, fault.WriteThrows?);
    }

    /**
     * `lock(String, int, TimeUnit)`: lock `lockName` in the default pool for
     * the local owner, or throw on a bad name or timeout before any read.
     */
    method LockByName(now: int, lockName: Option<string>, timeout: int32, unit: TimeUnit, local: Owner, fault: Fault)
      returns (r: Checked<LockResult>)
      modifies store
      ensures r.IllegalArgument? <==> LockNameArgsError(lockName, timeout).Some?
      ensures r.IllegalArgument? ==> Some(r.error) == LockNameArgsError(lockName, timeout) && store.rows == old(store.rows)
      ensures r.Returned? ==>
        && lockName.Some? && timeout > 0 && fresh(r.value)
        && var key := Key(DEFAULT_POOL, lockName.value);
           var o := Attempt(old(store.rows), now, key, Grant(local, now, timeout, unit), fault);
           store.rows == o.table && Reports(r.value, key, o)
    {
      var e := LockNameArgsError(lockName, timeout);
      if e.Some? {
        return IllegalArgument(e.value);
      }
      var newExpire := now + ToMillis(timeout, unit);
      var newDto := new LockDTO(Some(DEFAULT_POOL), lockName, Some(local.host), Some(local.ip), local.id, newExpire);
      newDto.SetSize(1);
      newDto.SetTimes(1);
      var res := TryLock(now, newDto, fault);
      r := Returned(res);
    }

    /**
     * `lock(NTLockDTO, int, TimeUnit)`: checks the whole DTO, then locks its
     * pool and name for the LOCAL owner; the DTO's own owner fields are
     * checked and then ignored.
     */
    method Lock(now: int, lockDTO: LockDTO?, timeout: int32, unit: TimeUnit, local: Owner, fault: Fault)
      returns (r: Checked<LockResult>)
      modifies store
      ensures r.IllegalArgument? <==> LockArgsError(lockDTO, timeout).Some?
      ensures r.IllegalArgument? ==> Some(r.error) == LockArgsError(lockDTO, timeout) && store.rows == old(store.rows)
      ensures r.Returned? ==>
        && lockDTO != null && Complete(lockDTO) && timeout > 0 && fresh(r.value)
        && var key := KeyOf(lockDTO);
           var o := Attempt(old(store.rows), now, key, Grant(local, now, timeout, unit), fault);
           store.rows == o.table && Reports(r.value, key, o)
    {
      var e := LockArgsError(lockDTO, timeout);
      if e.Some? {
        return IllegalArgument(e.value);
      }
      var newExpire := now + ToMillis(timeout, unit);
      var newDto := new LockDTO(lockDTO.pool, lockDTO.name, Some(local.host), Some(local.ip), local.id, newExpire);
      newDto.SetSize(1);
      newDto.SetTimes(1);
      var res := TryLock(now, newDto, fault);
      r := Returned(res);
    }

    /**
     * `release(NTLockDTO)`: deletes the row at the DTO's key only when the
     * DTO's owner holds it, expired or not. True iff a row was deleted;
     * false when the store throws.
     */
    method Release(lockDTO: LockDTO?, throws: bool) returns (r: Checked<bool>)
      modifies store
      ensures r.IllegalArgument? <==> ReleaseArgsError(lockDTO).Some?
      ensures r.IllegalArgument? ==> Some(r.error) == ReleaseArgsError(lockDTO) && store.rows == old(store.rows)
      ensures r.Returned? ==>
        && lockDTO != null && Complete(lockDTO)
        && r.value == (!throws && OwnedBy(old(store.rows), KeyOf(lockDTO), OwnerOf(lockDTO)))
        && store.rows == if throws then old(store.rows) else Released(old(store.rows), KeyOf(lockDTO), OwnerOf(lockDTO))
    {
      var e := ReleaseArgsError(lockDTO);
      if e.Some? {
        return IllegalArgument(e.value);
      }
      if throws {
        return Returned(false);
      }
      var key, owner := KeyOf(lockDTO), OwnerOf(lockDTO);
      var deleted := OwnedBy(store.rows, key, owner);
      store.rows := Released(store.rows, key, owner);
      r := Returned(deleted);
    }

    /** `release(String)`: releases `lockName` in the default pool for the local owner. */
    method ReleaseByName(lockName: Option<string>, local: Owner, throws: bool) returns (r: Checked<bool>)
      modifies store
      ensures r.IllegalArgument? <==> ReleaseNameArgsError(lockName, local).Some?
      ensures r.IllegalArgument? ==> Some(r.error) == ReleaseNameArgsError(lockName, local) && store.rows == old(store.rows)
      ensures r.Returned? ==>
        && lockName.Some?
        && var key := Key(DEFAULT_POOL, lockName.value);
           r.value == (!throws && OwnedBy(old(store.rows), key, local))
           && store.rows == if throws then old(store.rows) else Released(old(store.rows), key, local)
    {
      if lockName.None? || |lockName.value| > MAX_NAME_LENGTH {
        return IllegalArgument(BadName);
      }
      // The source stamps the current time as the expiry; `release` never reads it.
      var d := new LockDTO(Some(DEFAULT_POOL), lockName, Some(local.host), Some(local.ip), local.id, 0);
      d.SetSize(1);
      d.SetTimes(1);
      r := Release(d, throws);
    }
  }

  /** The expiry cleaner, sharing the table with the engine. */
  class CleanThread {
    const store: Store

    constructor (store: Store)
      ensures this.store == store
    {
      this.store := store;
    }

    /** `clean`: deletes every row that expired one hour or more before `now`; a store error changes nothing. */
    method Clean(now: int, throws: bool)
      modifies store
      ensures store.rows == if throws then old(store.rows) else Purged(old(store.rows), now - HOUR_MS)
    {
      if throws {
        return;
      }
      store.rows := Purged(store.rows, now - HOUR_MS);
    }
  }
}
