/**
 Conservation of supply: when TotalSupply equals the sum of all balances, plain
 or sharded, and when burns can take it below zero.
 */
module Supply {
  import opened State
  import opened Stablecoin
  import opened HotDelta

  /** The balances of the accounts below `n`, with nothing pre-funded. */
  function SumBalances(state: Writes, n: nat): Value {
    if n == 0 then 0 else SumBalances(state, n - 1) + BalanceOf(0, state, n - 1)
  }

  /** How far the balances are ahead of the recorded supply. */
  function Gap(state: Writes, n: nat): Value {
    SumBalances(state, n) - U64Of(state, TotalSupply)
  }

  predicate AccountsBelow(tx: StablecoinTx, n: nat) {
    match tx.txType
    case Transfer(s, r, _) => s < n && r < n
    case Mint(to, _) => to < n
    case Burn(from, _) => from < n
    case InitBalance(a, _) => a < n
  }

  predicate AllBelow(txs: seq<StablecoinTx>, n: nat) {
    forall i | 0 <= i < |txs| :: AccountsBelow(txs[i], n)
  }

  /** The transactions that create or destroy money without touching the supply. */
  predicate Breaks(tx: StablecoinTx, state: Writes) {
    match tx.txType
    case Transfer(s, r, x) => s == r && 0 < x <= BalanceOf(0, state, s)
    case InitBalance(a, x) => x != BalanceOf(0, state, a)
    case _ => false
  }

  lemma {:induction false} SumSame(st: Writes, st': Writes, n: nat)
    requires forall a: nat | a < n :: BalanceOf(0, st', a) == BalanceOf(0, st, a)
    ensures SumBalances(st', n) == SumBalances(st, n)
  {
    if n == 0 {
    } else {
      SumSame(st, st', n - 1);
    }
  }

  lemma {:induction false} SumOne(st: Writes, st': Writes, n: nat, a: nat)
    requires a < n && forall b: nat | b < n && b != a :: BalanceOf(0, st', b) == BalanceOf(0, st, b)
    ensures SumBalances(st', n) - SumBalances(st, n) == BalanceOf(0, st', a) - BalanceOf(0, st, a)
  {
    if a < n - 1 { SumOne(st, st', n - 1, a); } else { SumSame(st, st', n - 1); }
  }

  lemma {:induction false} SumTwo(st: Writes, st': Writes, n: nat, a: nat, b: nat)
    requires a < n && b < n && a != b
    requires forall c: nat | c < n && c != a && c != b :: BalanceOf(0, st', c) == BalanceOf(0, st, c)
    ensures SumBalances(st', n) - SumBalances(st, n) ==
            BalanceOf(0, st', a) - BalanceOf(0, st, a) + BalanceOf(0, st', b) - BalanceOf(0, st, b)
  {
    var mid := st[Balance(a) := BalanceOf(0, st', a)];
    SumOne(st, mid, n, a);
    SumOne(mid, st', n, b);
  }

  /** One step keeps balances and supply in line exactly when it is not one of the breaking ones. */
  lemma StepKeepsGapIff(tx: StablecoinTx, state: Writes, n: nat)
    requires AccountsBelow(tx, n)
    ensures Gap(PlainStep(0, tx, state), n) == Gap(state, n) <==> !Breaks(tx, state)
  {
    var after := PlainStep(0, tx, state);
    match tx.txType
    case Transfer(s, r, x) =>
      if BalanceOf(0, state, s) >= x {
        if s == r { SumOne(state, after, n, s); } else { SumTwo(state, after, n, s, r); }
      }
    case Mint(to, x) => SumOne(state, after, n, to);
    case Burn(from, x) => if BalanceOf(0, state, from) >= x { SumOne(state, after, n, from); }
    case InitBalance(a, x) => SumOne(state, after, n, a);
  }

  ghost predicate InLine(txs: seq<StablecoinTx>, n: nat, i: nat)
    requires i <= |txs|
  {
    Gap(PlainLedger(0, txs[..i]), n) == 0
  }

  ghost predicate BreaksAt(txs: seq<StablecoinTx>, i: nat)
    requires i < |txs|
  {
    Breaks(txs[i], PlainLedger(0, txs[..i]))
  }

  lemma GapAt(txs: seq<StablecoinTx>, n: nat, i: nat)
    requires AllBelow(txs, n) && i < |txs|
    ensures Gap(PlainLedger(0, txs[..i + 1]), n) == Gap(PlainLedger(0, txs[..i]), n) <==> !BreaksAt(txs, i)
  {
    assert txs[..i + 1][..i] == txs[..i];
    StepKeepsGapIff(txs[i], PlainLedger(0, txs[..i]), n);
  }

  lemma {:induction false} EmptyGap(n: nat)
    ensures Gap(map[], n) == 0
  {
    if n == 0 {
    } else {
      EmptyGap(n - 1);
    }
  }

  /** TotalSupply is the sum of all balances after each of the first `j` transactions, and before the first. */
  ghost predicate InLineUpTo(txs: seq<StablecoinTx>, n: nat, j: nat) {
    forall i: nat | i <= j && i <= |txs| :: InLine(txs, n, i)
  }

  ghost predicate NoneBreaksBelow(txs: seq<StablecoinTx>, j: nat) {
    forall i: nat | i < j && i < |txs| :: !BreaksAt(txs, i)
  }

  lemma InLineNext(txs: seq<StablecoinTx>, n: nat, j: nat)
    requires AllBelow(txs, n) && j < |txs| && InLine(txs, n, j)
    ensures InLine(txs, n, j + 1) <==> !BreaksAt(txs, j)
  {
    GapAt(txs, n, j);
  }

  /** TotalSupply is the sum of all balances after every prefix of the block, exactly when no transaction breaks it. */
  lemma {:induction false} SupplyConservedIff(txs: seq<StablecoinTx>, n: nat, j: nat)
    requires AllBelow(txs, n) && j <= |txs|
    ensures InLineUpTo(txs, n, j) <==> NoneBreaksBelow(txs, j)
  {
    if j == 0 {
      EmptyGap(n);
      assert txs[..0] == [];
    } else {
      SupplyConservedIff(txs, n, j - 1);
      if InLine(txs, n, j - 1) { InLineNext(txs, n, j - 1); }
    }
  }

  ghost predicate NoneBreaks(txs: seq<StablecoinTx>) {
    NoneBreaksBelow(txs, |txs|)
  }

  /** The condition is met without InitBalance and self-transfers. */
  lemma OnlyMovesSuffices(txs: seq<StablecoinTx>)
    requires forall i | 0 <= i < |txs| :: !txs[i].txType.InitBalance? && !SelfTransfer(txs[i])
    ensures NoneBreaks(txs) && NonePaysItself(0, txs)
  {
  }

  /** If no transaction breaks it, the supply is the sum of all balances after any number of transactions. */
  lemma SupplyConserved(txs: seq<StablecoinTx>, n: nat, i: nat)
    requires AllBelow(txs, n) && NoneBreaks(txs) && i <= |txs|
    ensures Gap(PlainLedger(0, txs[..i]), n) == 0
  {
    SupplyConservedIff(txs, n, |txs|);
    assert InLine(txs, n, i);
  }

  // --- Signs and bounds ---

  /** Balances and nonces are never negative, whatever the block. */
  ghost predicate NonNegative(state: Writes) {
    forall k | k in state && k != TotalSupply :: state[k] >= 0
  }

  lemma {:induction false} LedgerNonNegative(fb: Value, txs: seq<StablecoinTx>)
    requires fb >= 0
    ensures NonNegative(PlainLedger(fb, txs))
  {
    if txs == [] {
    } else {
      LedgerNonNegative(fb, txs[..|txs| - 1]);
    }
  }

  lemma {:induction false} SumAtLeast(state: Writes, n: nat, a: nat)
    requires NonNegative(state) && a < n
    ensures SumBalances(state, n) >= BalanceOf(0, state, a) >= 0
  {
    if a < n - 1 { SumAtLeast(state, n - 1, a); } else { SumNonNegative(state, n - 1); }
  }

  lemma {:induction false} SumNonNegative(state: Writes, n: nat)
    requires NonNegative(state)
    ensures SumBalances(state, n) >= 0
  {
    if n == 0 {
    } else {
      SumNonNegative(state, n - 1);
    }
  }

  /** No balance exceeds the supply, as long as the balances are not ahead of it. */
  lemma BalanceWithinSupply(txs: seq<StablecoinTx>, n: nat, a: nat)
    requires Gap(PlainLedger(0, txs), n) <= 0 && a < n
    ensures 0 <= BalanceOf(0, PlainLedger(0, txs), a) <= U64Of(PlainLedger(0, txs), TotalSupply)
  {
    LedgerNonNegative(0, txs);
    SumAtLeast(PlainLedger(0, txs), n, a);
  }

  // --- Burns ---

  /** If transaction `i` is a burn that passes its balance check, the supply covers it. */
  ghost predicate BurnCovered(fb: Value, txs: seq<StablecoinTx>, i: nat)
    requires i < |txs|
  {
    var state, t := PlainLedger(fb, txs[..i]), txs[i].txType;
    t.Burn? && BalanceOf(fb, state, t.from) >= t.amount ==> U64Of(state, TotalSupply) >= t.amount
  }

  ghost predicate BurnsCovered(fb: Value, txs: seq<StablecoinTx>, j: nat) {
    forall i: nat | i < j && i < |txs| :: BurnCovered(fb, txs, i)
  }

  ghost predicate SupplyNonNegative(fb: Value, txs: seq<StablecoinTx>, i: nat)
    requires i <= |txs|
  {
    U64Of(PlainLedger(fb, txs[..i]), TotalSupply) >= 0
  }

  lemma SupplyNext(fb: Value, txs: seq<StablecoinTx>, i: nat)
    requires i < |txs| && SupplyNonNegative(fb, txs, i)
    ensures SupplyNonNegative(fb, txs, i + 1) <==> BurnCovered(fb, txs, i)
  {
    assert txs[..i + 1][..i] == txs[..i];
  }

  /** The serial loop never takes the supply below zero exactly when the supply covers every burn it performs. */
  lemma {:induction false} SupplyNonNegativeIff(fb: Value, txs: seq<StablecoinTx>, j: nat)
    requires j <= |txs|
    ensures (forall i: nat | i <= j :: SupplyNonNegative(fb, txs, i)) <==> BurnsCovered(fb, txs, j)
  {
    if j == 0 {
      assert txs[..0] == [];
    } else {
      SupplyNonNegativeIff(fb, txs, j - 1);
      if SupplyNonNegative(fb, txs, j - 1) { SupplyNext(fb, txs, j - 1); }
    }
  }

  /** A burn of an account is covered as long as the balances are not ahead of the supply. */
  lemma BurnNeverUnderflows(txs: seq<StablecoinTx>, n: nat, i: nat)
    requires i < |txs| && (txs[i].txType.Burn? ==> txs[i].txType.from < n)
    requires Gap(PlainLedger(0, txs[..i]), n) <= 0
    ensures BurnCovered(0, txs, i)
  {
    if txs[i].txType.Burn? { BalanceWithinSupply(txs[..i], n, txs[i].txType.from); }
  }

  lemma {:induction false} SomeBound(txs: seq<StablecoinTx>) returns (n: nat)
    ensures AllBelow(txs, n)
  {
    if txs == [] {
      n := 0;
    } else {
      n := SomeBound(txs[..|txs| - 1]);
      var t := txs[|txs| - 1];
      var a := t.ConflictDomain() + if t.txType.Transfer? then t.txType.sender else 0;
      n := n + a + 1;
    }
  }

  /** Without breaking transactions all burns are covered. */
  lemma NoneBreaksCovers(txs: seq<StablecoinTx>)
    requires NoneBreaks(txs)
    ensures BurnsCovered(0, txs, |txs|)
  {
    var n := SomeBound(txs);
    forall i: nat | i < |txs| ensures BurnCovered(0, txs, i) {
      SupplyConserved(txs, n, i);
      BurnNeverUnderflows(txs, n, i);
    }
  }

  /** An account funded by InitBalance burns money that was never minted. */
  lemma FundedThenBurnt(init: StablecoinTx, burn: StablecoinTx)
    requires init.txType == InitBalance(1, 10) && burn.txType == Burn(1, 10)
    ensures U64Of(PlainLedger(0, [init, burn]), TotalSupply) == -10
    ensures !BurnsCovered(0, [init, burn], 2) && NonePaysItself(0, [init, burn])
  {
    assert [init, burn][..1] == [init] && [init][..0] == [];
    assert PlainLedger(0, [init]) == map[Balance(1) := 10];
    assert !BurnCovered(0, [init, burn], 1);
  }

  // --- What any later burns can do ---

  /** The ledger after further transactions. */
  ghost function After(state: Writes, txs: seq<StablecoinTx>): Writes {
    if txs == [] then state else PlainStep(0, txs[|txs| - 1], After(state, txs[..|txs| - 1]))
  }

  predicate OnlyBurns(txs: seq<StablecoinTx>, n: nat) {
    forall i | 0 <= i < |txs| :: txs[i].txType.Burn? && txs[i].txType.from < n
  }

  lemma {:induction false} BurnsKeepGap(state: Writes, txs: seq<StablecoinTx>, n: nat)
    requires NonNegative(state) && OnlyBurns(txs, n)
    ensures NonNegative(After(state, txs)) && Gap(After(state, txs), n) == Gap(state, n)
  {
    if txs == [] {
    } else {
      var last := |txs| - 1;
      BurnsKeepGap(state, txs[..last], n);
      StepKeepsGapIff(txs[last], After(state, txs[..last]), n);
    }
  }

  /** Burn all that the accounts below `n` hold. */
  ghost function Drain(state: Writes, n: nat): seq<StablecoinTx>
    requires NonNegative(state)
  {
    if n == 0 then []
    else Drain(state, n - 1) + [StablecoinTx(Burn(n - 1, BalanceOf(0, state, n - 1)), 0, 0)]
  }

  lemma BurnEmpties(state: Writes, tx: StablecoinTx, from: nat)
    requires BalanceOf(0, state, from) >= 0 && tx.txType == Burn(from, BalanceOf(0, state, from))
    ensures forall a: nat :: BalanceOf(0, PlainStep(0, tx, state), a) ==
                             if a == from then 0 else BalanceOf(0, state, a)
  {
  }

  lemma {:induction false} DrainEmpties(state: Writes, n: nat)
    requires NonNegative(state)
    ensures OnlyBurns(Drain(state, n), n)
    ensures forall a: nat :: BalanceOf(0, After(state, Drain(state, n)), a) ==
                             if a < n then 0 else BalanceOf(0, state, a)
  {
    if n == 0 {
    } else {
      DrainEmpties(state, n - 1);
      var all, before := Drain(state, n), After(state, Drain(state, n - 1));
      assert all[..|all| - 1] == Drain(state, n - 1);
      assert BalanceOf(0, before, n - 1) == BalanceOf(0, state, n - 1);
      BurnEmpties(before, all[|all| - 1], n - 1);
    }
  }

  lemma {:induction false} SumZeroes(state: Writes, n: nat)
    requires forall a: nat | a < n :: BalanceOf(0, state, a) == 0
    ensures SumBalances(state, n) == 0
  {
    if n == 0 {
    } else {
      SumZeroes(state, n - 1);
    }
  }

  /**
   No further burns of the accounts below `n` take the supply below zero exactly
   when the balances of these accounts are not ahead of it.
   */
  lemma BurnsSafeIff(state: Writes, n: nat)
    requires NonNegative(state)
    ensures Gap(state, n) <= 0 <==>
            forall txs | OnlyBurns(txs, n) :: U64Of(After(state, txs), TotalSupply) >= 0
  {
    if Gap(state, n) <= 0 {
      forall txs | OnlyBurns(txs, n) ensures U64Of(After(state, txs), TotalSupply) >= 0 {
        BurnsKeepGap(state, txs, n);
        SumNonNegative(After(state, txs), n);
      }
    } else {
      var all := Drain(state, n);
      DrainEmpties(state, n);
      BurnsKeepGap(state, all, n);
      SumZeroes(After(state, all), n);
    }
  }

  // --- Upper bounds ---

  function Minted(txs: seq<StablecoinTx>): nat {
    if txs == [] then 0
    else Minted(txs[..|txs| - 1]) + if txs[|txs| - 1].txType.Mint? then txs[|txs| - 1].txType.amount else 0
  }

  lemma {:induction false} SupplyAtMostMinted(txs: seq<StablecoinTx>)
    ensures U64Of(PlainLedger(0, txs), TotalSupply) <= Minted(txs)
  {
    if txs == [] {
    } else {
      SupplyAtMostMinted(txs[..|txs| - 1]);
    }
  }

  /** No balance exceeds what was minted, so 64-bit balances do not wrap unless the minted total does. */
  lemma BalanceAtMostMinted(txs: seq<StablecoinTx>, n: nat, a: nat)
    requires Gap(PlainLedger(0, txs), n) <= 0 && a < n
    ensures 0 <= BalanceOf(0, PlainLedger(0, txs), a) <= U64Of(PlainLedger(0, txs), TotalSupply) <= Minted(txs)
  {
    BalanceWithinSupply(txs, n, a);
    SupplyAtMostMinted(txs);
  }

  // --- The sharded form ---

  function SumFull(m: Manager, sh: Writes, n: nat): Value {
    if n == 0 then 0 else SumFull(m, sh, n - 1) + FullBalance(m, 0, sh, n - 1)
  }

  lemma {:induction false} SumFullIsPlain(m: Manager, sh: Writes, pl: Writes, n: nat)
    requires Refines(m, 0, sh, pl)
    ensures SumFull(m, sh, n) == SumBalances(pl, n)
  {
    if n == 0 {
    } else {
      SumFullIsPlain(m, sh, pl, n - 1);
      assert AccountRefines(m, 0, sh, pl, n - 1);
    }
  }

  /** With shards, the balances and shards are as far ahead of the supply as the balances of the serial loop. */
  lemma ShardedSupplyConserved(m: Manager, txs: seq<StablecoinTx>, n: nat)
    requires NonePaysItself(0, txs)
    ensures var sh := SerialState(AsBlock(m, 0, txs));
            SumFull(m, sh, n) - U64Of(sh, TotalSupply) == Gap(PlainLedger(0, txs), n)
    ensures AllBelow(txs, n) && NoneBreaks(txs) ==> Gap(PlainLedger(0, txs), n) == 0
  {
    BlockRefines(m, 0, txs);
    SumFullIsPlain(m, SerialState(AsBlock(m, 0, txs)), PlainLedger(0, txs), n);
    if AllBelow(txs, n) && NoneBreaks(txs) {
      SupplyConserved(txs, n, |txs|);
      assert txs[..|txs|] == txs;
    }
  }
}
