/**
 * The result of a lock attempt: whether the lock is held, the record that
 * describes it, and a failure message. `success` and `lockDTO` are fixed at
 * construction; only `message` is set afterwards.
 */
module LockOutcome {
  import opened Wrappers
  import opened LockRecord

  /**
   * The failure messages the engine writes, by kind and with the values it
   * formats into them (the wording itself is not modelled).
   */
  datatype Reason =
    | InsertFailed(pool: string, name: string)          // the insert of a new row threw
    | TakeoverLost                                       // the row had expired but another writer changed it first
    | HeldBy(host: string, ip: string, id: int, expire: int) // a live lease of another owner
    | Unexpected(pool: string, name: string)             // any other store error

  class LockResult {
    const success: bool
    const lockDTO: LockDTO?
    var message: Option<Reason>

    constructor (success: bool, lockDTO: LockDTO?)
      ensures this.success == success && this.lockDTO == lockDTO && message == None
    {
      this.success := success;
      this.lockDTO := lockDTO;
      message := None;
    }

    /** A held lock described by `lockDTO`. */
    static method MakeSuccess(lockDTO: LockDTO?) returns (r: LockResult)
      ensures fresh(r)
      ensures r.success && r.lockDTO == lockDTO && r.message == None
    {
      r := new LockResult(true, lockDTO);
    }

    /** A refused lock described by `lockDTO`, without a message. */
    static method MakeFailure(lockDTO: LockDTO?) returns (r: LockResult)
      ensures fresh(r)
      ensures !r.success && r.lockDTO == lockDTO && r.message == None
    {
      r := new LockResult(false, lockDTO);
    }

    /** A refused lock described by `lockDTO`, with `message`. */
    static method MakeFailureWithMessage(lockDTO: LockDTO?, message: Option<Reason>) returns (r: LockResult)
      ensures fresh(r)
      ensures !r.success && r.lockDTO == lockDTO && r.message == message
    {
      r := MakeFailure(lockDTO);
      r.SetMessage(message);
    }

    method SetMessage(message: Option<Reason>)
      modifies this`message
      ensures this.message == message
    {
      this.message := message;
    }
  }
}
