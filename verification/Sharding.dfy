/**
 What sharding is for: which keys a transaction can touch, which shard a credit
 goes to, and when two transfers get in each other's way.
 */
module Sharding {
  import opened State
  import opened Stablecoin
  import DomainPlan
  import Speculation

  // --- Which shard ---

  ghost predicate DifferBy(x: int, y: int, k: int, p: int) {
    x - y == k * p
  }

  /** The two numbers differ by a multiple of `p`. */
  ghost predicate Congruent(x: int, y: int, p: int) {
    exists k: int :: DifferBy(x, y, k, p)
  }

  lemma LargeMultiple(z: int, p: int)
    requires p > 0 && z != 0
    ensures z * p >= p || z * p <= -p
  {
  }

  lemma ModCongruent(x: nat, y: nat, p: nat)
    requires p > 0
    ensures x % p == y % p <==> Congruent(x, y, p)
  {
    assert x == x / p * p + x % p && y == y / p * p + y % p;
    var z := x / p - y / p;
    assert z * p == x / p * p - y / p * p;
    if x % p == y % p {
      assert DifferBy(x, y, z, p);
    }
    if k: int :| DifferBy(x, y, k, p) {
      assert (k - z) * p == k * p - z * p;
      if k != z { LargeMultiple(k - z, p); }
    }
  }

  /**
   Two credits to a hot account go to the same shard exactly when the hashes of
   their transactions agree modulo the number of shards; a hash below that number
   names its own shard.
   */
  lemma CreditShard(m: Manager, a: nat, t: nat, u: nat)
    requires m.IsHot(a)
    ensures CreditKey(m, a, t).Delta? && CreditKey(m, a, t).account == a && CreditKey(m, a, t).shard < m.Count(a)
    ensures CreditKey(m, a, t) == CreditKey(m, a, u) <==> Congruent(m.hash(t), m.hash(u), m.Count(a))
    ensures m.hash(t) < m.Count(a) ==> CreditKey(m, a, t) == Delta(a, m.hash(t))
  {
    ModCongruent(m.hash(t), m.hash(u), m.Count(a));
  }

  // --- Which keys ---

  ghost predicate TouchesOn(m: Manager, fb: Value, tx: StablecoinTx, h: seq<Option<Value>>, k: StateKey) {
    match NextOp(m, fb, tx, h)
    case Read(key) => key == k
    case Finish(writes) => k in writes
  }

  /** With some values read so far, the transaction reads or writes `k` next. */
  ghost predicate Touches(m: Manager, fb: Value, tx: StablecoinTx, k: StateKey) {
    exists h :: TouchesOn(m, fb, tx, h, k)
  }

  /** The balance and the shards of an account. */
  predicate HoldingOf(m: Manager, a: nat, k: StateKey) {
    k == Balance(a) || (m.IsHot(a) && k.Delta? && k.account == a && k.shard < m.Count(a))
  }

  /** The keys by the kind of transaction. */
  predicate Footprint(m: Manager, tx: StablecoinTx, k: StateKey) {
    match tx.txType
    case Transfer(s, r, _) => HoldingOf(m, s, k) || k == Nonce(s) || k == CreditKey(m, r, tx.txHash)
    case Mint(to, _) => k == TotalSupply || k == Nonce(0) || k == CreditKey(m, to, tx.txHash)
    case Burn(from, _) => HoldingOf(m, from, k) || k == TotalSupply || k == Nonce(0)
    case InitBalance(a, _) => HoldingOf(m, a, k)
  }

  lemma ListInFootprint(m: Manager, fb: Value, tx: StablecoinTx, h: seq<Option<Value>>, i: nat)
    requires NextOp(m, fb, tx, h).Finish? && i < |Speculation.ListOn(m, fb, tx, h)|
    ensures Footprint(m, tx, Speculation.ListOn(m, fb, tx, h)[i].0)
  {
  }

  lemma TouchedInFootprint(m: Manager, fb: Value, tx: StablecoinTx, h: seq<Option<Value>>, k: StateKey)
    requires TouchesOn(m, fb, tx, h, k)
    ensures Footprint(m, tx, k)
  {
    if NextOp(m, fb, tx, h).Finish? {
      Speculation.ListOnIsOutput(m, fb, tx, h);
      var i := Speculation.ToMapValue(Speculation.ListOn(m, fb, tx, h), k);
      ListInFootprint(m, fb, tx, h, i);
    }
  }

  // --- All of them ---

  lemma {:induction false} ToMapHas(list: WriteList, i: nat)
    requires i < |list|
    ensures list[i].0 in ToMap(list)
  {
    if i < |list| - 1 { ToMapHas(list[..|list| - 1], i); }
  }

  lemma {:induction false} NothingAdds(h: seq<Option<Value>>)
    requires forall i | 0 <= i < |h| :: h[i].None?
    ensures SumZero(h) == 0
  {
    if h == [] {
    } else {
      NothingAdds(h[..|h| - 1]);
    }
  }

  /** A history of `n` reads that finds `x` under the first key and nothing else. */
  function Found(x: Value, n: nat): (h: seq<Option<Value>>)
    requires n >= 1
    ensures |h| == n && h[0] == Some(x) && forall i | 1 <= i < n :: h[i].None?
  {
    [Some(x)] + seq(n - 1, _ => None)
  }

  lemma FoundBalance(m: Manager, fb: Value, a: nat, x: Value, n: nat)
    requires n >= BalanceReads(m, a)
    ensures BalanceFrom(m, fb, a, Found(x, n)) == x
  {
    NothingAdds(Found(x, n)[1..BalanceReads(m, a)]);
  }

  lemma HoldingTouched(m: Manager, fb: Value, tx: StablecoinTx, a: nat, k: StateKey)
    requires (tx.txType.Transfer? && a == tx.txType.sender) || (tx.txType.Burn? && a == tx.txType.from)
    requires HoldingOf(m, a, k)
    ensures Touches(m, fb, tx, k)
  {
    var n := if k.Balance? then 0 else k.shard + 1;
    assert k == BalanceKey(a, n) && n < BalanceReads(m, a);
    assert TouchesOn(m, fb, tx, seq(n, _ => None), k);
  }

  lemma TransferTouched(m: Manager, fb: Value, tx: StablecoinTx, k: StateKey)
    requires tx.txType.Transfer? && Footprint(m, tx, k)
    ensures Touches(m, fb, tx, k)
  {
    var Transfer(s, r, x) := tx.txType;
    if HoldingOf(m, s, k) {
      HoldingTouched(m, fb, tx, s, k);
    } else {
      var n := BalanceReads(m, s) + if k == Nonce(s) then 0 else 1;
      FoundBalance(m, fb, s, x, n);
      assert TouchesOn(m, fb, tx, Found(x, n), k);
    }
  }

  lemma BurnTouched(m: Manager, fb: Value, tx: StablecoinTx, k: StateKey)
    requires tx.txType.Burn? && Footprint(m, tx, k)
    ensures Touches(m, fb, tx, k)
  {
    var Burn(a, x) := tx.txType;
    if HoldingOf(m, a, k) {
      HoldingTouched(m, fb, tx, a, k);
    } else {
      var n := BalanceReads(m, a) + if k == TotalSupply then 0 else 1;
      FoundBalance(m, fb, a, x, n);
      assert TouchesOn(m, fb, tx, Found(x, n), k);
    }
  }

  lemma MintTouched(m: Manager, fb: Value, tx: StablecoinTx, k: StateKey)
    requires tx.txType.Mint? && Footprint(m, tx, k)
    ensures Touches(m, fb, tx, k)
  {
    var n := if k == TotalSupply then 0 else if k == Nonce(0) then 1 else 2;
    assert TouchesOn(m, fb, tx, seq(n, _ => None), k);
  }

  lemma InitTouched(m: Manager, fb: Value, tx: StablecoinTx, k: StateKey)
    requires tx.txType.InitBalance? && Footprint(m, tx, k)
    ensures Touches(m, fb, tx, k)
  {
    var list := InitWrites(m, tx);
    var i := if k.Balance? then 0 else k.shard + 1;
    assert list[i].0 == k;
    ToMapHas(list, i);
    assert TouchesOn(m, fb, tx, [], k);
  }

  /** The keys a transaction can read or write are exactly those of its footprint. */
  lemma TouchesIff(m: Manager, fb: Value, tx: StablecoinTx, k: StateKey)
    ensures Touches(m, fb, tx, k) <==> Footprint(m, tx, k)
  {
    if h :| TouchesOn(m, fb, tx, h, k) {
      TouchedInFootprint(m, fb, tx, h, k);
    }
    if Footprint(m, tx, k) {
      match tx.txType
      case Transfer(_, _, _) => TransferTouched(m, fb, tx, k);
      case Mint(_, _) => MintTouched(m, fb, tx, k);
      case Burn(_, _) => BurnTouched(m, fb, tx, k);
      case InitBalance(_, _) => InitTouched(m, fb, tx, k);
    }
  }

  // --- Conflicts ---

  /** A credit to a hot account touches one of its shards and no other key of the account. */
  lemma CreditTouchesOneShard(m: Manager, fb: Value, tx: StablecoinTx, a: nat, k: StateKey)
    requires (tx.txType.Mint? && tx.txType.to == a) || (tx.txType.Transfer? && tx.txType.receiver == a)
    requires tx.txType.Transfer? ==> tx.txType.sender != a
    requires m.IsHot(a) && HoldingOf(m, a, k)
    ensures Touches(m, fb, tx, k) <==> k == CreditKey(m, a, tx.txHash)
  {
    TouchesIff(m, fb, tx, k);
    CreditShard(m, a, tx.txHash, tx.txHash);
  }

  ghost predicate Conflict(m: Manager, fb: Value, t: StablecoinTx, u: StablecoinTx) {
    exists k :: Touches(m, fb, t, k) && Touches(m, fb, u, k)
  }

  /**
   Two transfers between different accounts have a key in common exactly when
   they credit the same account and, if it is hot, the same shard.
   */
  lemma TransfersConflictIff(m: Manager, fb: Value, t: StablecoinTx, u: StablecoinTx)
    requires t.txType.Transfer? && u.txType.Transfer? && t.txType.sender != u.txType.sender
    requires t.txType.receiver != u.txType.sender && u.txType.receiver != t.txType.sender
    ensures Conflict(m, fb, t, u) <==>
              var r := t.txType.receiver;
              r == u.txType.receiver && (m.IsHot(r) ==> Congruent(m.hash(t.txHash), m.hash(u.txHash), m.Count(r)))
  {
    var r, s := t.txType.receiver, u.txType.receiver;
    var k := CreditKey(m, r, t.txHash);
    TouchesIff(m, fb, t, k);
    TouchesIff(m, fb, u, k);
    if m.IsHot(r) { CreditShard(m, r, t.txHash, u.txHash); }
    if m.IsHot(s) { CreditShard(m, s, u.txHash, t.txHash); }
    if x :| Touches(m, fb, t, x) && Touches(m, fb, u, x) {
      TouchesIff(m, fb, t, x);
      TouchesIff(m, fb, u, x);
    }
  }

  // --- What the domain plan relies on ---

  /** With some values read, the transaction ends with a write to `k`. */
  ghost predicate CanWrite(m: Manager, fb: Value, tx: StablecoinTx, k: StateKey) {
    exists h :: NextOp(m, fb, tx, h).Finish? && TouchesOn(m, fb, tx, h, k)
  }

  lemma WriteAt(m: Manager, fb: Value, tx: StablecoinTx, h: seq<Option<Value>>, i: nat)
    requires NextOp(m, fb, tx, h).Finish? && i < |Speculation.ListOn(m, fb, tx, h)|
    ensures CanWrite(m, fb, tx, Speculation.ListOn(m, fb, tx, h)[i].0)
  {
    Speculation.ListOnIsOutput(m, fb, tx, h);
    ToMapHas(Speculation.ListOn(m, fb, tx, h), i);
    assert TouchesOn(m, fb, tx, h, Speculation.ListOn(m, fb, tx, h)[i].0);
  }

  /** A history on which the transaction passes its check and finishes. */
  lemma Finishing(m: Manager, fb: Value, tx: StablecoinTx) returns (h: seq<Option<Value>>)
    ensures NextOp(m, fb, tx, h).Finish? && Speculation.FundedOn(m, fb, tx, h)
  {
    h := if tx.txType.InitBalance? then [] else Found(tx.txType.amount, ReadLimit(m, tx));
    match tx.txType
    case Transfer(s, _, x) => FoundBalance(m, fb, s, x, ReadLimit(m, tx));
    case Burn(from, x) => FoundBalance(m, fb, from, x, ReadLimit(m, tx));
    case _ =>
  }

  /** The plan marks exactly the transactions that can write the supply. */
  lemma SupplyWrittenIff(m: Manager, fb: Value, tx: StablecoinTx)
    ensures DomainPlan.TouchesSupply(tx) <==> CanWrite(m, fb, tx, TotalSupply)
  {
    if DomainPlan.TouchesSupply(tx) {
      var h := Finishing(m, fb, tx);
      WriteAt(m, fb, tx, h, 1);
    }
    if h :| NextOp(m, fb, tx, h).Finish? && TouchesOn(m, fb, tx, h, TotalSupply) {
      TouchedInFootprint(m, fb, tx, h, TotalSupply);
    }
  }

  predicate OfAccount(k: StateKey, a: nat) {
    (k.Balance? || k.Delta?) && k.account == a
  }

  /**
   The account of its domain is one a transaction can write, and the only one
   besides the sender of a transfer.
   */
  lemma DomainWrittenIff(m: Manager, fb: Value, tx: StablecoinTx, a: nat)
    ensures (exists k :: OfAccount(k, a) && CanWrite(m, fb, tx, k)) <==>
            a == tx.ConflictDomain() || (tx.txType.Transfer? && a == tx.txType.sender)
  {
    var h := Finishing(m, fb, tx);
    WriteAt(m, fb, tx, h, 0);
    if tx.txType.Transfer? { WriteAt(m, fb, tx, h, 1); }
    var list := Speculation.ListOn(m, fb, tx, h);
    if tx.txType.Transfer? {
      assert OfAccount(list[0].0, tx.txType.sender) && OfAccount(list[1].0, tx.ConflictDomain());
    } else {
      assert OfAccount(list[0].0, tx.ConflictDomain());
    }
    if k :| OfAccount(k, a) && CanWrite(m, fb, tx, k) {
      var g :| NextOp(m, fb, tx, g).Finish? && TouchesOn(m, fb, tx, g, k);
      TouchedInFootprint(m, fb, tx, g, k);
    }
  }
}
