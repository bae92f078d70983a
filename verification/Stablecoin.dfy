/**
 The stablecoin executor, with and without Hot-Delta shards, and the plain
 serial ledger it must agree with.
 */
module Stablecoin {
  import opened State

  datatype TxType =
    | Transfer(sender: nat, receiver: nat, amount: nat)
    | Mint(to: nat, amount: nat)
    | Burn(from: nat, amount: nat)
    | InitBalance(account: nat, amount: nat)

  datatype StablecoinTx = StablecoinTx(txType: TxType, nonce: nat, txHash: nat) {

    function ConflictDomain(): nat {
      match txType
      case Transfer(_, receiver, _) => receiver
      case Mint(to, _) => to
      case Burn(from, _) => from
      case InitBalance(account, _) => account
    }

    function Sender(): nat {
      match txType
      case Transfer(sender, _, _) => sender
      case Mint(_, _) => 0
      case Burn(_, _) => 0
      case InitBalance(account, _) => account
    }
  }

  /** The shard counts of the hot accounts and the hash that picks a shard. No hot account: Hot-Delta is off. */
  datatype Shards = Shards(counts: map<nat, nat>, hash: nat -> nat) {

    predicate IsHot(a: nat) {
      a in counts
    }

    function Count(a: nat): nat {
      if a in counts then counts[a] else 1
    }

    ghost predicate Valid() {
      forall a | a in counts :: counts[a] >= 1
    }

    function DeltaKey(a: nat, txHash: nat): StateKey
      requires Count(a) >= 1
    {
      Delta(a, hash(txHash) % Count(a))
    }
  }

  type Manager = m: Shards | m.Valid() witness Shards(map[], x => x)

  // --- Reading a state ---

  function Or(v: Option<Value>, default: Value): Value {
    if v.Some? then v.value else default
  }

  function BalanceOf(fb: Value, state: Writes, a: nat): Value {
    Or(Get(state, Balance(a)), fb)
  }

  function U64Of(state: Writes, k: StateKey): Value {
    Or(Get(state, k), 0)
  }

  /** The first `p` delta shards of `a`. */
  function ShardSum(state: Writes, a: nat, p: nat): Value {
    if p == 0 then 0 else ShardSum(state, a, p - 1) + U64Of(state, Delta(a, p - 1))
  }

  /** read_balance_with_deltas; for an account that is not hot, read_balance. */
  function FullBalance(m: Manager, fb: Value, state: Writes, a: nat): Value {
    BalanceOf(fb, state, a) + if m.IsHot(a) then ShardSum(state, a, m.Count(a)) else 0
  }

  // --- The plain serial ledger ---

  function PlainStep(fb: Value, tx: StablecoinTx, state: Writes): Writes {
    match tx.txType
    case Transfer(s, r, x) =>
      var senderBal := BalanceOf(fb, state, s);
      if senderBal >= x then
        var receiverBal := BalanceOf(fb, state, r);
        var senderNonce := U64Of(state, Nonce(s));
        state[Balance(s) := senderBal - x][Balance(r) := receiverBal + x][Nonce(s) := senderNonce + 1]
      else state
    case Mint(to, x) =>
      state[Balance(to) := BalanceOf(fb, state, to) + x]
           [TotalSupply := U64Of(state, TotalSupply) + x]
           [Nonce(0) := U64Of(state, Nonce(0)) + 1]
    case Burn(from, x) =>
      var bal := BalanceOf(fb, state, from);
      if bal >= x then
        state[Balance(from) := bal - x]
             [TotalSupply := U64Of(state, TotalSupply) - x]
             [Nonce(0) := U64Of(state, Nonce(0)) + 1]
      else state
    case InitBalance(a, x) => state[Balance(a) := x]
  }

  /** The balance check of the serial loop. */
  predicate Covered(fb: Value, tx: StablecoinTx, state: Writes) {
    match tx.txType
    case Transfer(s, _, x) => BalanceOf(fb, state, s) >= x
    case Burn(from, x) => BalanceOf(fb, state, from) >= x
    case _ => true
  }

  /**
   What a step moves: money at its domain and at the sender of a transfer, the
   supply, and the nonce of its sender.
   */
  lemma StepMeaning(fb: Value, tx: StablecoinTx, state: Writes)
    ensures var after, x := PlainStep(fb, tx, state), tx.txType.amount;
            if !Covered(fb, tx, state) then after == state
            else
              && (tx.txType.Transfer? && tx.Sender() != tx.ConflictDomain() ==>
                    && BalanceOf(fb, after, tx.Sender()) == BalanceOf(fb, state, tx.Sender()) - x
                    && BalanceOf(fb, after, tx.ConflictDomain()) == BalanceOf(fb, state, tx.ConflictDomain()) + x)
              && (tx.txType.Mint? ==>
                    BalanceOf(fb, after, tx.ConflictDomain()) == BalanceOf(fb, state, tx.ConflictDomain()) + x)
              && (tx.txType.Burn? ==>
                    BalanceOf(fb, after, tx.ConflictDomain()) == BalanceOf(fb, state, tx.ConflictDomain()) - x)
              && (tx.txType.InitBalance? ==>
                    tx.Sender() == tx.ConflictDomain() && BalanceOf(fb, after, tx.ConflictDomain()) == x)
    ensures forall a: nat | a != tx.ConflictDomain() && (tx.txType.Transfer? ==> a != tx.Sender()) ::
              Get(PlainStep(fb, tx, state), Balance(a)) == Get(state, Balance(a))
    ensures forall a: nat ::
              U64Of(PlainStep(fb, tx, state), Nonce(a)) ==
              U64Of(state, Nonce(a)) +
              if Covered(fb, tx, state) && !tx.txType.InitBalance? && a == tx.Sender() then 1 else 0
    ensures U64Of(PlainStep(fb, tx, state), TotalSupply) ==
            if tx.txType.Mint? then U64Of(state, TotalSupply) + tx.txType.amount
            else if tx.txType.Burn? && Covered(fb, tx, state) then U64Of(state, TotalSupply) - tx.txType.amount
            else U64Of(state, TotalSupply)
  {
  }

  ghost function PlainLedger(fb: Value, txs: seq<StablecoinTx>): Writes {
    if txs == [] then map[]
    else PlainStep(fb, txs[|txs| - 1], PlainLedger(fb, txs[..|txs| - 1]))
  }

  /** serial_execute_with_balance: one pass over the block, updating a hash map. */
  method SerialExecute(txs: seq<StablecoinTx>, fb: Value) returns (state: Writes)
    ensures state == PlainLedger(fb, txs)
  {
    state := map[];
    for i := 0 to |txs|
      invariant state == PlainLedger(fb, txs[..i])
    {
      assert txs[..i + 1][..i] == txs[..i];
      match txs[i].txType
      case Transfer(s, r, x) =>
        var senderBal := BalanceOf(fb, state, s);
        if senderBal >= x {
          var receiverBal := BalanceOf(fb, state, r);
          var senderNonce := U64Of(state, Nonce(s));
          state := state[Balance(s) := senderBal - x];
          state := state[Balance(r) := receiverBal + x];
          state := state[Nonce(s) := senderNonce + 1];
        }
      case Mint(to, x) =>
        var bal, supply, nonce := BalanceOf(fb, state, to), U64Of(state, TotalSupply), U64Of(state, Nonce(0));
        state := state[Balance(to) := bal + x];
        state := state[TotalSupply := supply + x];
        state := state[Nonce(0) := nonce + 1];
      case Burn(from, x) =>
        var bal := BalanceOf(fb, state, from);
        if bal >= x {
          var supply, nonce := U64Of(state, TotalSupply), U64Of(state, Nonce(0));
          state := state[Balance(from) := bal - x];
          state := state[TotalSupply := supply - x];
          state := state[Nonce(0) := nonce + 1];
        }
      case InitBalance(a, x) =>
        state := state[Balance(a) := x];
    }
    assert txs[..|txs|] == txs;
  }

  // --- The executor: the write list of one transaction ---

  type WriteList = seq<(StateKey, Value)>

  /** The resets of all shards of a hot account. */
  function Resets(m: Manager, a: nat): WriteList {
    if m.IsHot(a) then seq(m.Count(a), s requires 0 <= s => (Delta(a, s), 0)) else []
  }

  /** Where a credit to `a` goes. */
  function CreditKey(m: Manager, a: nat, txHash: nat): StateKey {
    if m.IsHot(a) then m.DeltaKey(a, txHash) else Balance(a)
  }

  /** The writes, in the order execute_transaction lists them, from the values it has read. */
  function TransferWrites(m: Manager, tx: StablecoinTx, bal: Value, nonce: Value, credit: Value): WriteList
    requires tx.txType.Transfer?
  {
    var Transfer(s, r, x) := tx.txType;
    [(Balance(s), bal - x), (CreditKey(m, r, tx.txHash), credit + x), (Nonce(s), nonce + 1)] + Resets(m, s)
  }

  function MintWrites(m: Manager, tx: StablecoinTx, supply: Value, nonce: Value, credit: Value): WriteList
    requires tx.txType.Mint?
  {
    var Mint(to, x) := tx.txType;
    [(CreditKey(m, to, tx.txHash), credit + x), (TotalSupply, supply + x), (Nonce(0), nonce + 1)]
  }

  function BurnWrites(m: Manager, tx: StablecoinTx, bal: Value, supply: Value, nonce: Value): WriteList
    requires tx.txType.Burn?
  {
    var Burn(from, x) := tx.txType;
    [(Balance(from), bal - x), (TotalSupply, supply - x), (Nonce(0), nonce + 1)] + Resets(m, from)
  }

  function InitWrites(m: Manager, tx: StablecoinTx): WriteList
    requires tx.txType.InitBalance?
  {
    [(Balance(tx.txType.account), tx.txType.amount)] + Resets(m, tx.txType.account)
  }

  /** The writes as a map; a later pair of the same key wins, as in the loops that rebuild the state. */
  function ToMap(list: WriteList): Writes {
    if list == [] then map[]
    else ToMap(list[..|list| - 1])[list[|list| - 1].0 := list[|list| - 1].1]
  }

  // --- The executor as a transaction of the protocol ---

  /** How many reads it takes to get the full balance of `a`. */
  function BalanceReads(m: Manager, a: nat): nat {
    1 + if m.IsHot(a) then m.Count(a) else 0
  }

  function BalanceKey(a: nat, at: nat): StateKey {
    if at == 0 then Balance(a) else Delta(a, at - 1)
  }

  function SumZero(h: seq<Option<Value>>): Value {
    if h == [] then 0 else SumZero(h[..|h| - 1]) + Or(h[|h| - 1], 0)
  }

  /** The balance from the values of the first reads. */
  function BalanceFrom(m: Manager, fb: Value, a: nat, h: seq<Option<Value>>): Value
    requires |h| >= BalanceReads(m, a)
  {
    Or(h[0], fb) + SumZero(h[1..BalanceReads(m, a)])
  }

  /** What a read of the credit key falls back to. */
  function CreditDefault(m: Manager, fb: Value, a: nat): Value {
    if m.IsHot(a) then 0 else fb
  }

  /** execute_transaction, as the next read or the final writes. */
  function NextOp(m: Manager, fb: Value, tx: StablecoinTx, h: seq<Option<Value>>): Op {
    match tx.txType
    case Transfer(s, r, x) =>
      var q := BalanceReads(m, s);
      if |h| < q then Read(BalanceKey(s, |h|))
      else
        var bal := BalanceFrom(m, fb, s, h);
        if bal < x then Finish(map[])
        else if |h| == q then Read(Nonce(s))
        else if |h| == q + 1 then Read(CreditKey(m, r, tx.txHash))
        else Finish(ToMap(TransferWrites(m, tx, bal, Or(h[q], 0), Or(h[q + 1], CreditDefault(m, fb, r)))))
    case Mint(to, x) =>
      if |h| == 0 then Read(TotalSupply)
      else if |h| == 1 then Read(Nonce(0))
      else if |h| == 2 then Read(CreditKey(m, to, tx.txHash))
      else Finish(ToMap(MintWrites(m, tx, Or(h[0], 0), Or(h[1], 0), Or(h[2], CreditDefault(m, fb, to)))))
    case Burn(from, x) =>
      var q := BalanceReads(m, from);
      if |h| < q then Read(BalanceKey(from, |h|))
      else
        var bal := BalanceFrom(m, fb, from, h);
        if bal < x then Finish(map[])
        else if |h| == q then Read(TotalSupply)
        else if |h| == q + 1 then Read(Nonce(0))
        else Finish(ToMap(BurnWrites(m, tx, bal, Or(h[q], 0), Or(h[q + 1], 0))))
    case InitBalance(a, x) => Finish(ToMap(InitWrites(m, tx)))
  }

  function ReadLimit(m: Manager, tx: StablecoinTx): nat {
    match tx.txType
    case Transfer(s, _, _) => BalanceReads(m, s) + 2
    case Mint(_, _) => 3
    case Burn(from, _) => BalanceReads(m, from) + 2
    case InitBalance(_, _) => 0
  }

  /** The executor on one transaction. */
  function AsTxn(m: Manager, fb: Value, tx: StablecoinTx): Txn {
    RawTxn(h => NextOp(m, fb, tx, h), ReadLimit(m, tx))
  }

  function AsBlock(m: Manager, fb: Value, txs: seq<StablecoinTx>): seq<Txn> {
    seq(|txs|, i requires 0 <= i < |txs| => AsTxn(m, fb, txs[i]))
  }
}
