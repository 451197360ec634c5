/**
 * The lock record object handed between callers and the engine. Its key,
 * owner and expiry are fixed at construction (Java `final` fields, `const`
 * here); pool size, acquire count and modification stamp are set through
 * setters. Expiry is an instant in milliseconds; the text form
 * `yyyy-MM-dd HH:mm:ss.SSS` is not modelled.
 */
module LockRecord {
  import opened Wrappers

  class LockDTO {
    const pool: Option<string>
    const name: Option<string>
    const ownHost: Option<string>
    const ownIp: Option<string>
    const ownId: int
    const expire: int
    var size: int
    var times: int
    var modifyTime: Option<string>

    /** Stores the six identity fields as given; size and times start at 1, modify at null. */
    constructor (pool: Option<string>, name: Option<string>, ownHost: Option<string>,
                 ownIp: Option<string>, ownId: int, expire: int)
      ensures this.pool == pool && this.name == name
      ensures this.ownHost == ownHost && this.ownIp == ownIp && this.ownId == ownId
      ensures this.expire == expire
      ensures size == 1 && times == 1 && modifyTime == None
    {
      this.pool := pool;
      this.name := name;
      this.ownHost := ownHost;
      this.ownIp := ownIp;
      this.ownId := ownId;
      this.expire := expire;
      size := 1;
      times := 1;
      modifyTime := None;
    }

    method SetSize(size: int)
      modifies this`size
      ensures this.size == size
      ensures times == old(times) && modifyTime == old(modifyTime)
    {
      this.size := size;
    }

    method SetTimes(times: int)
      modifies this`times
      ensures this.times == times
      ensures size == old(size) && modifyTime == old(modifyTime)
    {
      this.times := times;
    }

    method SetModify(stamp: Option<string>)
      modifies this`modifyTime
      ensures this.modifyTime == stamp
      ensures size == old(size) && times == old(times)
    {
      modifyTime := stamp;
    }
  }
}
