/**
 What one incarnation of a stablecoin transaction writes, from whatever it has
 read: when the multi-version memory accepts its write list, and when the
 subtraction of a burn goes below zero.
 */
module Speculation {
  import opened State
  import opened Protocol
  import opened Footprint
  import opened Runs
  import opened Serial
  import opened Stablecoin
  import opened HotDelta
  import opened Supply
  import opened MvMemory

  /** The balance check of execute_transaction, on the values read. */
  predicate FundedOn(m: Manager, fb: Value, tx: StablecoinTx, h: seq<Option<Value>>) {
    match tx.txType
    case Transfer(s, _, x) => |h| >= BalanceReads(m, s) && BalanceFrom(m, fb, s, h) >= x
    case Burn(from, x) => |h| >= BalanceReads(m, from) && BalanceFrom(m, fb, from, h) >= x
    case _ => true
  }

  /** The write list of an incarnation that has read `h`. */
  function ListOn(m: Manager, fb: Value, tx: StablecoinTx, h: seq<Option<Value>>): WriteList
    requires NextOp(m, fb, tx, h).Finish?
  {
    if !FundedOn(m, fb, tx, h) then []
    else
      match tx.txType
      case Transfer(s, r, _) =>
        var q := BalanceReads(m, s);
        TransferWrites(m, tx, BalanceFrom(m, fb, s, h), Or(h[q], 0), Or(h[q + 1], CreditDefault(m, fb, r)))
      case Mint(to, _) => MintWrites(m, tx, Or(h[0], 0), Or(h[1], 0), Or(h[2], CreditDefault(m, fb, to)))
      case Burn(from, _) =>
        var q := BalanceReads(m, from);
        BurnWrites(m, tx, BalanceFrom(m, fb, from, h), Or(h[q], 0), Or(h[q + 1], 0))
      case InitBalance(_, _) => InitWrites(m, tx)
  }

  lemma ListOnIsOutput(m: Manager, fb: Value, tx: StablecoinTx, h: seq<Option<Value>>)
    requires NextOp(m, fb, tx, h).Finish?
    ensures ToMap(ListOn(m, fb, tx, h)) == NextOp(m, fb, tx, h).writes
  {
  }

  // --- Writing a list into the memory ---

  /** Every pair passes the assertion of the memory: no key twice, and only cells of earlier incarnations. */
  ghost predicate Accepts(cells: map<StateKey, Cell>, inc: nat, list: WriteList) {
    DistinctKeys(list) && forall i | 0 <= i < |list| && list[i].0 in cells :: cells[list[i].0].inc < inc
  }

  function Stamped(cells: map<StateKey, Cell>, inc: nat, w: Writes): map<StateKey, Cell> {
    cells + map k | k in w :: Cell(false, inc, w[k])
  }

  lemma {:induction false} ToMapKeys(list: WriteList, k: StateKey)
    ensures k in ToMap(list) <==> exists i :: 0 <= i < |list| && list[i].0 == k
  {
    if list == [] {
    } else {
      ToMapKeys(list[..|list| - 1], k);
      assert list[|list| - 1].0 in ToMap(list);
    }
  }

  lemma StampedNext(cells: map<StateKey, Cell>, inc: nat, list: WriteList, i: nat)
    requires i < |list|
    ensures Stamped(cells, inc, ToMap(list[..i]))[list[i].0 := Cell(false, inc, list[i].1)] ==
            Stamped(cells, inc, ToMap(list[..i + 1]))
  {
    assert list[..i + 1][..i] == list[..i];
  }

  lemma AcceptsNext(cells: map<StateKey, Cell>, inc: nat, list: WriteList, i: nat)
    requires i < |list| && Accepts(cells, inc, list[..i])
    ensures var now := Stamped(cells, inc, ToMap(list[..i]));
            Accepts(cells, inc, list[..i + 1]) <==> (list[i].0 in now ==> now[list[i].0].inc < inc)
  {
    ToMapKeys(list[..i], list[i].0);
    if j :| 0 <= j < i && list[j].0 == list[i].0 {
      assert list[..i + 1][j].0 == list[..i + 1][i].0;
    } else {
      var more := list[..i + 1];
      forall j, k | 0 <= j < k < |more| ensures more[j].0 != more[k].0 {
        assert k < i ==> list[..i][j].0 != list[..i][k].0;
      }
      forall j | 0 <= j < i && list[j].0 in cells ensures cells[list[j].0].inc < inc {
        assert list[..i][j].0 in cells;
      }
      assert list[..i + 1][i] == list[i];
    }
  }

  lemma AcceptsPrefix(cells: map<StateKey, Cell>, inc: nat, list: WriteList, i: nat)
    requires i <= |list| && Accepts(cells, inc, list)
    ensures Accepts(cells, inc, list[..i])
  {
    forall j | 0 <= j < i && list[..i][j].0 in cells ensures cells[list[..i][j].0].inc < inc {
      assert list[j].0 in cells;
    }
  }

  /**
   apply_writes: the pairs one by one, up to the first failed assertion. It goes
   through exactly for a list without repeated keys over older cells, and then
   leaves the memory the protocol reaches with the output as a map.
   */
  method ApplyWrites(mv: MVHashMap, list: WriteList, ver: Version, ghost n: nat) returns (ok: bool)
    requires ver.idx < n
    modifies mv
    ensures ok <==> Accepts(old(mv.View(n))[ver.idx], ver.inc, list)
    ensures ok ==>
              mv.View(n) == old(mv.View(n))[ver.idx := Stamped(old(mv.View(n))[ver.idx], ver.inc, ToMap(list))]
  {
    ghost var before := mv.View(n);
    ghost var cells := before[ver.idx];
    assert Stamped(cells, ver.inc, ToMap(list[..0])) == cells;
    for i := 0 to |list|
      invariant Accepts(cells, ver.inc, list[..i])
      invariant mv.View(n) == before[ver.idx := Stamped(cells, ver.inc, ToMap(list[..i]))]
    {
      AcceptsNext(cells, ver.inc, list, i);
      StampedNext(cells, ver.inc, list, i);
      assert mv.View(ver.idx + 1)[ver.idx] == mv.View(n)[ver.idx];
      ok := mv.Write(list[i].0, ver, list[i].1);
      if !ok {
        if Accepts(cells, ver.inc, list) { AcceptsPrefix(cells, ver.inc, list, i + 1); }
        return;
      }
    }
    assert list[..|list|] == list;
    ok := true;
  }

  // --- When the assertion holds in a run ---

  /** The list names a key twice exactly when a self-transfer passes its balance check on what it has read. */
  lemma ListOnDistinctIff(m: Manager, fb: Value, tx: StablecoinTx, h: seq<Option<Value>>)
    requires NextOp(m, fb, tx, h).Finish?
    ensures DistinctKeys(ListOn(m, fb, tx, h)) <==> !(SelfTransfer(tx) && FundedOn(m, fb, tx, h))
  {
    if FundedOn(m, fb, tx, h) {
      match tx.txType
      case Transfer(s, r, _) =>
        var q := BalanceReads(m, s);
        TransferKeys(m, tx, BalanceFrom(m, fb, s, h), Or(h[q], 0), Or(h[q + 1], CreditDefault(m, fb, r)));
      case Burn(from, _) =>
        var q := BalanceReads(m, from);
        BurnKeys(m, tx, BalanceFrom(m, fb, from, h), Or(h[q], 0), Or(h[q + 1], 0));
      case _ =>
    }
  }

  /** An executor that has not written yet finds only cells of earlier incarnations at its index. */
  lemma OlderCells(cf: Config, run: seq<System>, q: nat, u: nat, k: StateKey)
    requires IsRun(cf, run) && q < |run| && u < |run[q].threads| && run[q].threads[u].Run? && run[q].threads[u].rp.Exec?
    ensures run[q].threads[u].i < |cf.block| == |run[q].sh.mv|
    ensures var Run(i, c, _) := run[q].threads[u];
            k in run[q].sh.mv[i] ==> run[q].sh.mv[i][k].inc < c
  {
    RunSafe(cf, run, q);
    var s := run[q];
    var at, hist :| Inv(cf, s, at, hist);
    assert Ownership.ThreadOwns(s.sh, s.threads[u], at, u);
    var Run(i, c, p) := s.threads[u];
    assert PcPrint(s.sh, hist, s.threads[u]) && IndexPrint(s.sh, hist, i);
    FreshPrint(s.sh, hist, i, c, p.log, map[]);
  }

  /**
   In every run on a stablecoin block: when an incarnation comes to write, the
   memory accepts its list exactly unless it is a self-transfer that passes its
   balance check on what this incarnation has read.
   */
  lemma WritesAcceptedIff(
      cf: Config, run: seq<System>, q: nat, u: nat, m: Manager, fb: Value, txs: seq<StablecoinTx>)
    requires IsRun(cf, run) && q < |run| && u < |run[q].threads| && cf.block == AsBlock(m, fb, txs)
    requires run[q].threads[u].Run? && run[q].threads[u].rp.Exec? && run[q].threads[u].i < |txs|
    requires NextOp(m, fb, txs[run[q].threads[u].i], Vals(run[q].threads[u].rp.log)).Finish?
    ensures |run[q].sh.mv| == |cf.block|
    ensures var Run(i, c, p) := run[q].threads[u];
            Accepts(run[q].sh.mv[i], c, ListOn(m, fb, txs[i], Vals(p.log))) <==>
            !(SelfTransfer(txs[i]) && FundedOn(m, fb, txs[i], Vals(p.log)))
  {
    var Run(i, c, p) := run[q].threads[u];
    forall k: StateKey ensures |run[q].sh.mv| == |cf.block| && (k in run[q].sh.mv[i] ==> run[q].sh.mv[i][k].inc < c) {
      OlderCells(cf, run, q, u, k);
    }
    OlderCells(cf, run, q, u, TotalSupply);
    ListOnDistinctIff(m, fb, txs[i], Vals(p.log));
  }

  // --- When a value goes below zero ---

  lemma {:induction false} ToMapValue(list: WriteList, k: StateKey) returns (i: nat)
    requires k in ToMap(list)
    ensures i < |list| && list[i] == (k, ToMap(list)[k])
  {
    var last := |list| - 1;
    if list[last].0 == k {
      i := last;
    } else {
      i := ToMapValue(list[..last], k);
    }
  }

  /** With distinct keys every pair of the list stands. */
  lemma {:induction false} ToMapDistinct(list: WriteList, i: nat)
    requires DistinctKeys(list) && i < |list|
    ensures list[i].0 in ToMap(list) && ToMap(list)[list[i].0] == list[i].1
  {
    var last := |list| - 1;
    if i == last {
    } else {
      ToMapDistinct(list[..last], i);
    }
  }

  predicate NoneNegative(h: seq<Option<Value>>) {
    forall i | 0 <= i < |h| && h[i].Some? :: h[i].value >= 0
  }

  /** The supply this incarnation of a burn has read is less than what it burns. */
  predicate BurnsTooMuch(m: Manager, fb: Value, tx: StablecoinTx, h: seq<Option<Value>>) {
    tx.txType.Burn? && FundedOn(m, fb, tx, h) &&
    |h| > BalanceReads(m, tx.txType.from) && Or(h[BalanceReads(m, tx.txType.from)], 0) < tx.txType.amount
  }

  lemma ListOnNegative(m: Manager, fb: Value, tx: StablecoinTx, h: seq<Option<Value>>, i: nat)
    requires NextOp(m, fb, tx, h).Finish? && NoneNegative(h) && fb >= 0 && i < |ListOn(m, fb, tx, h)|
    ensures ListOn(m, fb, tx, h)[i].1 < 0 ==> BurnsTooMuch(m, fb, tx, h) && i == 1
    ensures BurnsTooMuch(m, fb, tx, h) && i == 1 ==> ListOn(m, fb, tx, h)[i].1 < 0
  {
  }

  /**
   An incarnation that has read no negative value writes one exactly when it is
   a burn that has seen enough balance and too little supply.
   */
  lemma UnderflowIff(m: Manager, fb: Value, tx: StablecoinTx, h: seq<Option<Value>>)
    requires NextOp(m, fb, tx, h).Finish? && NoneNegative(h) && fb >= 0
    ensures var w := NextOp(m, fb, tx, h).writes;
            (exists k | k in w :: w[k] < 0) <==> BurnsTooMuch(m, fb, tx, h)
  {
    ListOnIsOutput(m, fb, tx, h);
    var list, w := ListOn(m, fb, tx, h), NextOp(m, fb, tx, h).writes;
    if k :| k in w && w[k] < 0 {
      var i := ToMapValue(list, k);
      ListOnNegative(m, fb, tx, h, i);
    }
    if BurnsTooMuch(m, fb, tx, h) {
      ListOnDistinctIff(m, fb, tx, h);
      ListOnNegative(m, fb, tx, h, 1);
      ToMapDistinct(list, 1);
    }
  }

  /** A burn that has read the balance a mint has written but not yet the supply. */
  lemma BurnBetweenWrites(m: Manager, tx: StablecoinTx)
    requires m.counts == map[] && tx.txType == Burn(1, 10)
    ensures var op := NextOp(m, 0, tx, [Some(10), None, None]);
            op.Finish? && TotalSupply in op.writes && op.writes[TotalSupply] == -10
  {
    var h: seq<Option<Value>> := [Some(10), None, None];
    assert SumZero(h[1..1]) == 0;
    ListOnIsOutput(m, 0, tx, h);
    ListOnDistinctIff(m, 0, tx, h);
    ToMapDistinct(ListOn(m, 0, tx, h), 1);
  }

  // --- Never in a result that counts ---

  ghost predicate AllNonNegative(state: Writes) {
    forall k | k in state :: state[k] >= 0
  }

  lemma ShardedNonNegative(m: Manager, fb: Value, tx: StablecoinTx, sh: Writes)
    requires AllNonNegative(sh) && fb >= 0 && !(SelfTransfer(tx) && Funded(m, fb, tx, sh))
    requires tx.txType.Burn? && Funded(m, fb, tx, sh) ==> U64Of(sh, TotalSupply) >= tx.txType.amount
    ensures AllNonNegative(ShardedWrites(m, fb, tx, sh))
  {
    var w := ShardedWrites(m, fb, tx, sh);
    if Funded(m, fb, tx, sh) {
      forall k | k in w ensures w[k] >= 0 {
        ShardedEffect(m, fb, tx, sh, k);
        assert Get(sh + w, k) == Some(w[k]);
      }
    }
  }

  lemma ShardedNegative(m: Manager, fb: Value, tx: StablecoinTx, sh: Writes)
    requires AllNonNegative(sh) && tx.txType.Burn? && Funded(m, fb, tx, sh)
    requires U64Of(sh, TotalSupply) < tx.txType.amount
    ensures !AllNonNegative(ShardedWrites(m, fb, tx, sh))
  {
    var w := ShardedWrites(m, fb, tx, sh);
    ShardedEffect(m, fb, tx, sh, TotalSupply);
    assert Get(sh + w, TotalSupply) == Some(U64Of(sh, TotalSupply) - tx.txType.amount);
    assert TotalSupply in w && w[TotalSupply] < 0;
  }

  /** The serial prefix passes the balance check of the next transaction with shards exactly when it does without. */
  lemma FundedAlike(m: Manager, fb: Value, txs: seq<StablecoinTx>, j: nat)
    requires NonePaysItself(fb, txs) && j < |txs|
    ensures var sh := SerialState(AsBlock(m, fb, txs[..j]));
            && !(SelfTransfer(txs[j]) && Funded(m, fb, txs[j], sh))
            && (BurnCovered(fb, txs, j) <==>
                (txs[j].txType.Burn? && Funded(m, fb, txs[j], sh) ==> U64Of(sh, TotalSupply) >= txs[j].txType.amount))
  {
    var sh, pl := SerialState(AsBlock(m, fb, txs[..j])), PlainLedger(fb, txs[..j]);
    NonePaysBefore(fb, txs, j);
    BlockRefines(m, fb, txs[..j]);
    match txs[j].txType
    case Transfer(s, _, _) => assert AccountRefines(m, fb, sh, pl, s);
    case Burn(from, _) => assert AccountRefines(m, fb, sh, pl, from);
    case _ =>
  }

  /** What transaction `i` writes when it reads the state of the serial prefix before it. */
  ghost function SerialOutput(m: Manager, fb: Value, txs: seq<StablecoinTx>, i: nat): Writes
    requires i < |txs|
  {
    RunAlone(AsTxn(m, fb, txs[i]), SerialState(AsBlock(m, fb, txs[..i])), [])
  }

  ghost predicate OutputNonNegative(m: Manager, fb: Value, txs: seq<StablecoinTx>, i: nat)
    requires i < |txs|
  {
    AllNonNegative(SerialOutput(m, fb, txs, i))
  }

  ghost predicate OutputsNonNegative(m: Manager, fb: Value, txs: seq<StablecoinTx>, j: nat) {
    forall i: nat | i < j && i < |txs| :: OutputNonNegative(m, fb, txs, i)
  }

  lemma {:induction false} StateNonNegative(m: Manager, fb: Value, txs: seq<StablecoinTx>, j: nat)
    requires j <= |txs| && OutputsNonNegative(m, fb, txs, j)
    ensures AllNonNegative(SerialState(AsBlock(m, fb, txs[..j])))
  {
    if j == 0 {
      assert AsBlock(m, fb, txs[..0]) == [];
    } else {
      StateNonNegative(m, fb, txs, j - 1);
      assert AsBlock(m, fb, txs[..j])[..j - 1] == AsBlock(m, fb, txs[..j - 1]);
      assert OutputNonNegative(m, fb, txs, j - 1);
    }
  }

  lemma OutputNonNegativeIff(m: Manager, fb: Value, txs: seq<StablecoinTx>, j: nat)
    requires NonePaysItself(fb, txs) && fb >= 0 && j < |txs| && OutputsNonNegative(m, fb, txs, j)
    ensures OutputNonNegative(m, fb, txs, j) <==> BurnCovered(fb, txs, j)
  {
    var sh := SerialState(AsBlock(m, fb, txs[..j]));
    StateNonNegative(m, fb, txs, j);
    FundedAlike(m, fb, txs, j);
    RunIsSharded(m, fb, txs[j], sh);
    if BurnCovered(fb, txs, j) {
      ShardedNonNegative(m, fb, txs[j], sh);
    } else {
      ShardedNegative(m, fb, txs[j], sh);
    }
  }

  /** If all burns up to `j` are covered, transaction `j` writes no negative value. */
  lemma {:induction false} CoveredSuffices(m: Manager, fb: Value, txs: seq<StablecoinTx>, j: nat)
    requires NonePaysItself(fb, txs) && fb >= 0 && j < |txs| && BurnsCovered(fb, txs, j + 1)
    ensures OutputNonNegative(m, fb, txs, j)
  {
    forall i: nat | i < j ensures OutputNonNegative(m, fb, txs, i) {
      CoveredSuffices(m, fb, txs, i);
    }
    assert BurnCovered(fb, txs, j);
    OutputNonNegativeIff(m, fb, txs, j);
  }

  /** Read from the serial prefixes, no output holds a negative value exactly when all burns are covered. */
  lemma SerialNonNegativeIff(m: Manager, fb: Value, txs: seq<StablecoinTx>, j: nat)
    requires NonePaysItself(fb, txs) && fb >= 0 && j <= |txs|
    ensures OutputsNonNegative(m, fb, txs, j) <==> BurnsCovered(fb, txs, j)
  {
    if OutputsNonNegative(m, fb, txs, j) {
      forall i: nat | i < j ensures BurnCovered(fb, txs, i) {
        OutputNonNegativeIff(m, fb, txs, i);
      }
    } else if BurnsCovered(fb, txs, j) {
      forall i: nat | i < j ensures OutputNonNegative(m, fb, txs, i) {
        CoveredSuffices(m, fb, txs, i);
      }
    }
  }

  lemma RecordedIsSerial(cf: Config, run: seq<System>, m: Manager, fb: Value, txs: seq<StablecoinTx>, i: nat)
    requires cf.block == AsBlock(m, fb, txs) && IsRun(cf, run) && Last(run).sh.done && i < |txs|
    ensures Settled(cf, Last(run).sh) && Outputs(Last(run).sh)[i] == SerialOutput(m, fb, txs, i)
  {
    SerialEquivalence(cf, run);
    assert cf.block[..i] == AsBlock(m, fb, txs[..i]);
    assert cf.block[i] == AsTxn(m, fb, txs[i]);
  }

  /**
   Speculative incarnations may compute a negative supply; the recorded outputs
   of a finished run hold none exactly when the serial loop covers every burn it
   performs, for every shard assignment, starting balance and interleaving.
   */
  lemma RecordedNonNegativeIff(cf: Config, run: seq<System>, m: Manager, fb: Value, txs: seq<StablecoinTx>)
    requires cf.block == AsBlock(m, fb, txs) && NonePaysItself(fb, txs) && fb >= 0
    requires IsRun(cf, run) && Last(run).sh.done
    ensures Settled(cf, Last(run).sh)
    ensures (forall i: nat | i < |txs| :: AllNonNegative(Outputs(Last(run).sh)[i])) <==>
            BurnsCovered(fb, txs, |txs|)
  {
    SerialEquivalence(cf, run);
    SerialNonNegativeIff(m, fb, txs, |txs|);
    forall i: nat | i < |txs|
      ensures AllNonNegative(Outputs(Last(run).sh)[i]) <==> OutputNonNegative(m, fb, txs, i)
    {
      RecordedIsSerial(cf, run, m, fb, txs, i);
    }
  }
}
