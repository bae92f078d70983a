/**
 Keys, values and transactions shared by the executor, the protocol model and
 the stablecoin ledger.
 */
module State {

  datatype Option<+T> = None | Some(value: T)

  /** Keys of the stablecoin state. */
  datatype StateKey =
    | Balance(account: nat)
    | Nonce(account: nat)
    | TotalSupply
    | Delta(account: nat, shard: nat)

  /** Unbounded; where the 64-bit width matters, a separate lemma gives the range. */
  type Value = int

  type Writes = map<StateKey, Value>

  /** What a transaction does next, given the values its reads returned so far. */
  datatype Op = Read(key: StateKey) | Finish(writes: Writes)

  /** A transaction is a deterministic function of the values it reads. */
  datatype RawTxn = RawTxn(op: seq<Option<Value>> -> Op, limit: nat)

  /** Every transaction finishes after at most `limit` reads, whatever they return. */
  ghost predicate Finishes(t: RawTxn) {
    forall h: seq<Option<Value>> :: |h| >= t.limit ==> t.op(h).Finish?
  }

  type Txn = t: RawTxn | Finishes(t) witness RawTxn(_ => Finish(map[]), 0)

  function Get(state: Writes, k: StateKey): Option<Value> {
    if k in state then Some(state[k]) else None
  }

  /** Runs one transaction alone against `state`; `h` holds the values read so far. */
  ghost function RunAlone(t: Txn, state: Writes, h: seq<Option<Value>>): Writes
    decreases if |h| <= t.limit then t.limit - |h| else 0
  {
    match t.op(h)
    case Finish(w) => w
    case Read(k) =>
      if |h| < t.limit then RunAlone(t, state, h + [Get(state, k)]) else map[]
  }

  /** One read of a transaction that runs alone. */
  lemma RunAloneRead(t: Txn, state: Writes, h: seq<Option<Value>>, k: StateKey)
    requires t.op(h) == Read(k)
    ensures RunAlone(t, state, h) == RunAlone(t, state, h + [Get(state, k)])
  {
  }

  /** The state after running `block` one transaction after the other from the empty state. */
  ghost function SerialState(block: seq<Txn>): Writes
  {
    if block == [] then map[]
    else
      var before := SerialState(block[..|block| - 1]);
      before + RunAlone(block[|block| - 1], before, [])
  }

  /** Applies a list of outputs in index order, as the callers of the executor do. */
  ghost function Replay(outputs: seq<Writes>): Writes
  {
    if outputs == [] then map[] else Replay(outputs[..|outputs| - 1]) + outputs[|outputs| - 1]
  }
}
