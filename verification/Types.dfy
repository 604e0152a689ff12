/** Results, error codes and the context a keeper method works in. */
module Types {
  import opened Bytes

  datatype Option<+T> = None | Some(value: T)

  /** The error values of the module and of the Cosmos SDK calls it wraps.
      `Panicked` stands for a Go panic. */
  datatype Error =
    | Invalid
    | MaxCapExceeded
    | Unknown
    | InvalidCoins
    | InvalidRequest
    | InvalidSigner
    | NoValidatorFound
    | NoDelegator
    | External
    | Panicked

  datatype Result<+T> = Ok(value: T) | Err(error: Error)

  function ErrOf<T>(r: Result<T>): Option<Error> {
    match r
    case Ok(_) => None
    case Err(e) => Some(e)
  }

  /** Addresses are plain byte strings. */
  type Addr = Bytes

  type Kv = map<Bytes, Bytes>

  /** Block heights are non-negative signed 64-bit numbers. */
  type Height = x: int | 0 <= x < 0x8000_0000_0000_0000

  type u32 = x: int | 0 <= x < 0x1_0000_0000

  datatype Coin = Coin(denom: string, amount: int)

  /** The module parameters, decoded. */
  datatype Params = Params(totalMaxCap: Coin, epochLength: u32, maxGas: u32)

  /** What a context gives access to: the block height, the persistent and the
      in-memory store of the module, and the rest of the application. */
  class Context<S> {
    var height: Height
    var time: i64
    var params: Params
    var store: Kv
    var mem: Kv
    var app: S

    constructor (height: Height, time: i64, params: Params, store: Kv, mem: Kv, app: S)
      ensures this.height == height && this.time == time && this.params == params
      ensures this.store == store && this.mem == mem && this.app == app
    {
      this.height, this.time, this.params := height, time, params;
      this.store, this.mem, this.app := store, mem, app;
    }

    /** A branch that starts from the current state. */
    method CacheContext() returns (c: Context<S>)
      ensures fresh(c)
      ensures c.height == height && c.time == time && c.params == params
      ensures c.store == store && c.mem == mem && c.app == app
    {
      c := new Context<S>(height, time, params, store, mem, app);
    }

    /** Write a branch back. */
    method Commit(c: Context<S>)
      modifies `store, `mem, `app
      ensures store == old(c.store) && mem == old(c.mem) && app == old(c.app)
    {
      store, mem, app := c.store, c.mem, c.app;
    }
  }
}
