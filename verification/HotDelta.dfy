/**
 The sharded ledger refines the plain one: a balance is the base entry plus the
 delta shards, and each sharded step matches one step of the plain ledger.
 */
module HotDelta {
  import opened State
  import opened Stablecoin

  // --- What the executor writes, as a function of the state ---

  function CreditOf(m: Manager, fb: Value, tx: StablecoinTx, a: nat, state: Writes): Value {
    Or(Get(state, CreditKey(m, a, tx.txHash)), CreditDefault(m, fb, a))
  }

  function ShardedWrites(m: Manager, fb: Value, tx: StablecoinTx, state: Writes): Writes {
    match tx.txType
    case Transfer(s, r, x) =>
      var bal := FullBalance(m, fb, state, s);
      if bal < x then map[]
      else ToMap(TransferWrites(m, tx, bal, U64Of(state, Nonce(s)), CreditOf(m, fb, tx, r, state)))
    case Mint(to, x) =>
      ToMap(MintWrites(m, tx, U64Of(state, TotalSupply), U64Of(state, Nonce(0)), CreditOf(m, fb, tx, to, state)))
    case Burn(from, x) =>
      var bal := FullBalance(m, fb, state, from);
      if bal < x then map[]
      else ToMap(BurnWrites(m, tx, bal, U64Of(state, TotalSupply), U64Of(state, Nonce(0))))
    case InitBalance(_, _) => ToMap(InitWrites(m, tx))
  }

  /** The values of the first `q` balance reads. */
  function BalanceValues(state: Writes, a: nat, q: nat): (h: seq<Option<Value>>)
    ensures |h| == q
  {
    if q == 0 then [] else BalanceValues(state, a, q - 1) + [Get(state, BalanceKey(a, q - 1))]
  }

  lemma {:induction false} BalanceValuesSum(state: Writes, a: nat, q: nat)
    requires q >= 1
    ensures BalanceValues(state, a, q)[0] == Get(state, Balance(a))
    ensures SumZero(BalanceValues(state, a, q)[1..q]) == ShardSum(state, a, q - 1)
  {
    if q == 1 {
      assert BalanceValues(state, a, 0) == [];
      assert BalanceValues(state, a, 1) == [Get(state, Balance(a))];
    } else {
      BalanceValuesSum(state, a, q - 1);
      var h, g := BalanceValues(state, a, q), BalanceValues(state, a, q - 1);
      assert h[1..q] == g[1..q - 1] + [Get(state, Delta(a, q - 2))];
      assert h[1..q][..q - 2] == g[1..q - 1];
    }
  }

  lemma BalanceFromValues(m: Manager, fb: Value, state: Writes, a: nat, h: seq<Option<Value>>)
    requires |h| >= BalanceReads(m, a) && h[..BalanceReads(m, a)] == BalanceValues(state, a, BalanceReads(m, a))
    ensures BalanceFrom(m, fb, a, h) == FullBalance(m, fb, state, a)
  {
    var q := BalanceReads(m, a);
    BalanceValuesSum(state, a, q);
    assert h[1..q] == h[..q][1..q] && h[0] == h[..q][0];
  }

  /** Running the executor through its balance reads. */
  lemma {:induction false} RunBalanceReads(t: Txn, state: Writes, a: nat, q: nat, j: nat)
    requires j <= q <= t.limit
    requires forall h: seq<Option<Value>> | |h| < q :: t.op(h) == Read(BalanceKey(a, |h|))
    ensures RunAlone(t, state, []) == RunAlone(t, state, BalanceValues(state, a, j))
    decreases j
  {
    if j == 0 {
    } else {
      RunBalanceReads(t, state, a, q, j - 1);
      assert t.op(BalanceValues(state, a, j - 1)) == Read(BalanceKey(a, j - 1));
    }
  }

  lemma RunTransfer(m: Manager, fb: Value, tx: StablecoinTx, state: Writes)
    requires tx.txType.Transfer?
    ensures RunAlone(AsTxn(m, fb, tx), state, []) == ShardedWrites(m, fb, tx, state)
  {
    var t, s, r := AsTxn(m, fb, tx), tx.txType.sender, tx.txType.receiver;
    var q := BalanceReads(m, s);
    RunBalanceReads(t, state, s, q, q);
    var h0 := BalanceValues(state, s, q);
    assert h0[..q] == h0;
    BalanceFromValues(m, fb, state, s, h0);
    assert t.op(h0) == NextOp(m, fb, tx, h0);
    if FullBalance(m, fb, state, s) >= tx.txType.amount {
      var h1 := h0 + [Get(state, Nonce(s))];
      assert h1[..q] == h0;
      BalanceFromValues(m, fb, state, s, h1);
      RunAloneRead(t, state, h0, Nonce(s));
      var h2 := h1 + [Get(state, CreditKey(m, r, tx.txHash))];
      assert h2[..q] == h0;
      BalanceFromValues(m, fb, state, s, h2);
      RunAloneRead(t, state, h1, CreditKey(m, r, tx.txHash));
      assert t.op(h2) == NextOp(m, fb, tx, h2);
    }
  }

  lemma RunBurn(m: Manager, fb: Value, tx: StablecoinTx, state: Writes)
    requires tx.txType.Burn?
    ensures RunAlone(AsTxn(m, fb, tx), state, []) == ShardedWrites(m, fb, tx, state)
  {
    var t, a := AsTxn(m, fb, tx), tx.txType.from;
    var q := BalanceReads(m, a);
    RunBalanceReads(t, state, a, q, q);
    var h0 := BalanceValues(state, a, q);
    assert h0[..q] == h0;
    BalanceFromValues(m, fb, state, a, h0);
    assert t.op(h0) == NextOp(m, fb, tx, h0);
    if FullBalance(m, fb, state, a) >= tx.txType.amount {
      var h1 := h0 + [Get(state, TotalSupply)];
      assert h1[..q] == h0;
      BalanceFromValues(m, fb, state, a, h1);
      RunAloneRead(t, state, h0, TotalSupply);
      var h2 := h1 + [Get(state, Nonce(0))];
      assert h2[..q] == h0;
      BalanceFromValues(m, fb, state, a, h2);
      RunAloneRead(t, state, h1, Nonce(0));
      assert t.op(h2) == NextOp(m, fb, tx, h2);
    }
  }

  lemma RunMint(m: Manager, fb: Value, tx: StablecoinTx, state: Writes)
    requires tx.txType.Mint?
    ensures RunAlone(AsTxn(m, fb, tx), state, []) == ShardedWrites(m, fb, tx, state)
  {
    var t := AsTxn(m, fb, tx);
    var h1 := [Get(state, TotalSupply)];
    var h2 := h1 + [Get(state, Nonce(0))];
    var h3 := h2 + [Get(state, CreditKey(m, tx.txType.to, tx.txHash))];
    assert [] + [Get(state, TotalSupply)] == h1;
    RunAloneRead(t, state, [], TotalSupply);
    RunAloneRead(t, state, h1, Nonce(0));
    RunAloneRead(t, state, h2, CreditKey(m, tx.txType.to, tx.txHash));
    assert t.op(h3) == NextOp(m, fb, tx, h3);
  }

  /** The executor, run alone read by read, writes what the state says. */
  lemma RunIsSharded(m: Manager, fb: Value, tx: StablecoinTx, state: Writes)
    ensures RunAlone(AsTxn(m, fb, tx), state, []) == ShardedWrites(m, fb, tx, state)
  {
    match tx.txType
    case Transfer(_, _, _) => RunTransfer(m, fb, tx, state);
    case Mint(_, _) => RunMint(m, fb, tx, state);
    case Burn(_, _) => RunBurn(m, fb, tx, state);
    case InitBalance(_, _) => assert AsTxn(m, fb, tx).op([]) == NextOp(m, fb, tx, []);
  }

  // --- The maps behind the write lists ---

  lemma {:induction false} ToMapAppend(x: WriteList, y: WriteList)
    ensures ToMap(x + y) == ToMap(x) + ToMap(y)
  {
    if y == [] {
      assert x + y == x;
    } else {
      assert (x + y)[..|x + y| - 1] == x + y[..|y| - 1];
      ToMapAppend(x, y[..|y| - 1]);
    }
  }

  function ZeroShards(a: nat, p: nat): Writes {
    if p == 0 then map[] else ZeroShards(a, p - 1)[Delta(a, p - 1) := 0]
  }

  lemma {:induction false} ZeroShardsKeys(a: nat, p: nat, k: StateKey)
    ensures k in ZeroShards(a, p) <==> k.Delta? && k.account == a && k.shard < p
    ensures k in ZeroShards(a, p) ==> ZeroShards(a, p)[k] == 0
  {
    if p == 0 {
    } else {
      ZeroShardsKeys(a, p - 1, k);
    }
  }

  lemma {:induction false} ResetList(a: nat, p: nat)
    ensures ToMap(seq(p, s requires 0 <= s => (Delta(a, s), 0))) == ZeroShards(a, p)
  {
    if p == 0 {
    } else {
      ResetList(a, p - 1);
      var list := seq(p, s requires 0 <= s => (Delta(a, s), 0));
      assert list[..p - 1] == seq(p - 1, s requires 0 <= s => (Delta(a, s), 0));
    }
  }

  function ResetMap(m: Manager, a: nat): Writes {
    if m.IsHot(a) then ZeroShards(a, m.Count(a)) else map[]
  }

  lemma ToMapThree(a: (StateKey, Value), b: (StateKey, Value), c: (StateKey, Value))
    ensures ToMap([a, b, c]) == map[][a.0 := a.1][b.0 := b.1][c.0 := c.1]
  {
    assert [a, b, c][..2] == [a, b] && [a, b][..1] == [a] && [a][..0] == [];
    assert ToMap([]) == map[];
    assert ToMap([a]) == map[][a.0 := a.1];
    assert ToMap([a, b]) == ToMap([a])[b.0 := b.1];
  }

  lemma ToMapWithResets(m: Manager, list: WriteList, a: nat)
    ensures ToMap(list + Resets(m, a)) == ToMap(list) + ResetMap(m, a)
  {
    ToMapAppend(list, Resets(m, a));
    if m.IsHot(a) { ResetList(a, m.Count(a)); }
  }

  // --- Sums of shards ---

  lemma {:induction false} ShardSumZero(st: Writes, a: nat, p: nat)
    requires forall s: nat | s < p :: U64Of(st, Delta(a, s)) == 0
    ensures ShardSum(st, a, p) == 0
  {
    if p == 0 {
    } else {
      ShardSumZero(st, a, p - 1);
    }
  }

  lemma {:induction false} ShardSumCredit(st: Writes, st': Writes, a: nat, p: nat, c: nat, x: Value)
    requires c < p && U64Of(st', Delta(a, c)) == U64Of(st, Delta(a, c)) + x
    requires forall s: nat | s < p && s != c :: U64Of(st', Delta(a, s)) == U64Of(st, Delta(a, s))
    ensures ShardSum(st', a, p) == ShardSum(st, a, p) + x
    decreases p
  {
    if c < p - 1 {
      ShardSumCredit(st, st', a, p - 1, c, x);
    } else {
      ShardSumEqual(st, st', a, p - 1);
    }
  }

  lemma {:induction false} ShardSumEqual(st: Writes, st': Writes, a: nat, p: nat)
    requires forall s: nat | s < p :: U64Of(st', Delta(a, s)) == U64Of(st, Delta(a, s))
    ensures ShardSum(st', a, p) == ShardSum(st, a, p)
  {
    if p == 0 {
    } else {
      ShardSumEqual(st, st', a, p - 1);
    }
  }

  // --- Refinement ---

  ghost predicate Touched(sh: Writes, a: nat) {
    Balance(a) in sh || exists c: nat :: Delta(a, c) in sh
  }

  ghost predicate AccountRefines(m: Manager, fb: Value, sh: Writes, pl: Writes, a: nat) {
    && FullBalance(m, fb, sh, a) == BalanceOf(fb, pl, a)
    && Get(sh, Nonce(a)) == Get(pl, Nonce(a))
    && (Balance(a) in pl <==> Touched(sh, a))
  }

  /** Delta keys exist only for the shards of hot accounts. */
  ghost predicate ValidKeys(m: Manager, sh: Writes) {
    forall a: nat, c: nat | Delta(a, c) in sh :: m.IsHot(a) && c < m.Count(a)
  }

  ghost predicate PlainKeys(pl: Writes) {
    forall a: nat, c: nat :: Delta(a, c) !in pl
  }

  /** The sharded state `sh` stands for the plain state `pl`. */
  ghost predicate Refines(m: Manager, fb: Value, sh: Writes, pl: Writes) {
    && (forall a: nat :: AccountRefines(m, fb, sh, pl, a))
    && Get(sh, TotalSupply) == Get(pl, TotalSupply)
    && ValidKeys(m, sh) && PlainKeys(pl)
  }

  predicate SelfTransfer(tx: StablecoinTx) {
    tx.txType.Transfer? && tx.txType.sender == tx.txType.receiver
  }

  /**
   What one transaction does: set the balance of `debit` to `bal`, add `x` to
   the balance of `credit`, count up one nonce, set the total supply.
   */
  datatype Change = Change(
      debit: Option<nat>, bal: Value, credit: Option<nat>, x: Value, nonce: Option<nat>, supply: Option<Value>)

  /** The change of a transaction that goes through. */
  function ChangeOf(m: Manager, fb: Value, tx: StablecoinTx, sh: Writes): Change {
    match tx.txType
    case Transfer(s, r, x) => Change(Some(s), FullBalance(m, fb, sh, s) - x, Some(r), x, Some(s), None)
    case Mint(to, x) => Change(None, 0, Some(to), x, Some(0), Some(U64Of(sh, TotalSupply) + x))
    case Burn(from, x) =>
      Change(Some(from), FullBalance(m, fb, sh, from) - x, None, 0, Some(0), Some(U64Of(sh, TotalSupply) - x))
    case InitBalance(a, x) => Change(Some(a), x, None, 0, None, None)
  }

  /** The balance check of a transfer or a burn. */
  predicate Funded(m: Manager, fb: Value, tx: StablecoinTx, sh: Writes) {
    match tx.txType
    case Transfer(s, _, x) => FullBalance(m, fb, sh, s) >= x
    case Burn(from, x) => FullBalance(m, fb, sh, from) >= x
    case _ => true
  }

  /** Key `k` after the change, in the sharded state. */
  function ShardedGet(m: Manager, fb: Value, tx: StablecoinTx, sh: Writes, ch: Change, k: StateKey): Option<Value> {
    match k
    case Balance(a) =>
      if ch.debit == Some(a) then Some(ch.bal)
      else if ch.credit == Some(a) && !m.IsHot(a) then Some(CreditOf(m, fb, tx, a, sh) + ch.x)
      else Get(sh, k)
    case Delta(a, c) =>
      if ch.debit == Some(a) && m.IsHot(a) && c < m.Count(a) then Some(0)
      else if ch.credit == Some(a) && k == CreditKey(m, a, tx.txHash) then Some(CreditOf(m, fb, tx, a, sh) + ch.x)
      else Get(sh, k)
    case Nonce(a) => if ch.nonce == Some(a) then Some(U64Of(sh, k) + 1) else Get(sh, k)
    case TotalSupply => if ch.supply.Some? then ch.supply else Get(sh, k)
  }

  /** Key `k` after the change, in the plain state. */
  function PlainGet(fb: Value, pl: Writes, ch: Change, k: StateKey): Option<Value> {
    match k
    case Balance(a) =>
      if ch.debit == Some(a) then Some(ch.bal)
      else if ch.credit == Some(a) then Some(BalanceOf(fb, pl, a) + ch.x)
      else Get(pl, k)
    case Delta(_, _) => Get(pl, k)
    case Nonce(a) => if ch.nonce == Some(a) then Some(U64Of(pl, k) + 1) else Get(pl, k)
    case TotalSupply => if ch.supply.Some? then ch.supply else Get(pl, k)
  }

  /** Writing `base` and then resetting the shards of `a`. */
  lemma GetAfterResets(m: Manager, a: nat, sh: Writes, base: Writes, k: StateKey)
    ensures Get(sh + (base + ResetMap(m, a)), k) ==
            if k.Delta? && k.account == a && m.IsHot(a) && k.shard < m.Count(a) then Some(0)
            else if k in base then Some(base[k])
            else Get(sh, k)
  {
    if m.IsHot(a) { ZeroShardsKeys(a, m.Count(a), k); }
  }

  lemma ShardedTransfer(m: Manager, fb: Value, tx: StablecoinTx, sh: Writes, k: StateKey)
    requires tx.txType.Transfer? && !SelfTransfer(tx) && Funded(m, fb, tx, sh)
    ensures Get(sh + ShardedWrites(m, fb, tx, sh), k) == ShardedGet(m, fb, tx, sh, ChangeOf(m, fb, tx, sh), k)
  {
    TransferMap(m, fb, tx, sh);
    GetAfterResets(m, tx.txType.sender, sh, TransferBase(m, fb, tx, sh), k);
  }

  /** What a transfer writes besides the resets. */
  function TransferBase(m: Manager, fb: Value, tx: StablecoinTx, sh: Writes): Writes
    requires tx.txType.Transfer?
  {
    var Transfer(s, r, x) := tx.txType;
    map[][Balance(s) := FullBalance(m, fb, sh, s) - x]
         [CreditKey(m, r, tx.txHash) := CreditOf(m, fb, tx, r, sh) + x]
         [Nonce(s) := U64Of(sh, Nonce(s)) + 1]
  }

  lemma TransferMap(m: Manager, fb: Value, tx: StablecoinTx, sh: Writes)
    requires tx.txType.Transfer? && Funded(m, fb, tx, sh)
    ensures ShardedWrites(m, fb, tx, sh) == TransferBase(m, fb, tx, sh) + ResetMap(m, tx.txType.sender)
  {
    var Transfer(s, r, x) := tx.txType;
    var p0 := (Balance(s), FullBalance(m, fb, sh, s) - x);
    var p1 := (CreditKey(m, r, tx.txHash), CreditOf(m, fb, tx, r, sh) + x);
    var p2 := (Nonce(s), U64Of(sh, Nonce(s)) + 1);
    ToMapThree(p0, p1, p2);
    ToMapWithResets(m, [p0, p1, p2], s);
  }

  lemma ShardedMint(m: Manager, fb: Value, tx: StablecoinTx, sh: Writes, k: StateKey)
    requires tx.txType.Mint?
    ensures Get(sh + ShardedWrites(m, fb, tx, sh), k) == ShardedGet(m, fb, tx, sh, ChangeOf(m, fb, tx, sh), k)
  {
    var Mint(to, x) := tx.txType;
    ToMapThree((CreditKey(m, to, tx.txHash), CreditOf(m, fb, tx, to, sh) + x),
               (TotalSupply, U64Of(sh, TotalSupply) + x), (Nonce(0), U64Of(sh, Nonce(0)) + 1));
  }

  lemma ShardedBurn(m: Manager, fb: Value, tx: StablecoinTx, sh: Writes, k: StateKey)
    requires tx.txType.Burn? && Funded(m, fb, tx, sh)
    ensures Get(sh + ShardedWrites(m, fb, tx, sh), k) == ShardedGet(m, fb, tx, sh, ChangeOf(m, fb, tx, sh), k)
  {
    var Burn(a, x) := tx.txType;
    var p0 := (Balance(a), FullBalance(m, fb, sh, a) - x);
    var p1 := (TotalSupply, U64Of(sh, TotalSupply) - x);
    var p2 := (Nonce(0), U64Of(sh, Nonce(0)) + 1);
    var base: Writes := map[][p0.0 := p0.1][p1.0 := p1.1][p2.0 := p2.1];
    ToMapThree(p0, p1, p2);
    ToMapWithResets(m, [p0, p1, p2], a);
    GetAfterResets(m, a, sh, base, k);
  }

  lemma ShardedInit(m: Manager, fb: Value, tx: StablecoinTx, sh: Writes, k: StateKey)
    requires tx.txType.InitBalance?
    ensures Get(sh + ShardedWrites(m, fb, tx, sh), k) == ShardedGet(m, fb, tx, sh, ChangeOf(m, fb, tx, sh), k)
  {
    var InitBalance(a, x) := tx.txType;
    var p0: (StateKey, Value) := (Balance(a), x);
    assert [p0][..0] == [] && ToMap([]) == map[];
    var base: Writes := map[][p0.0 := p0.1];
    assert ToMap([p0]) == base;
    ToMapWithResets(m, [p0], a);
    GetAfterResets(m, a, sh, base, k);
  }

  lemma ShardedEffect(m: Manager, fb: Value, tx: StablecoinTx, sh: Writes, k: StateKey)
    requires !SelfTransfer(tx) && Funded(m, fb, tx, sh)
    ensures Get(sh + ShardedWrites(m, fb, tx, sh), k) == ShardedGet(m, fb, tx, sh, ChangeOf(m, fb, tx, sh), k)
  {
    match tx.txType
    case Transfer(_, _, _) => ShardedTransfer(m, fb, tx, sh, k);
    case Mint(_, _) => ShardedMint(m, fb, tx, sh, k);
    case Burn(_, _) => ShardedBurn(m, fb, tx, sh, k);
    case InitBalance(_, _) => ShardedInit(m, fb, tx, sh, k);
  }

  lemma PlainEffect(m: Manager, fb: Value, tx: StablecoinTx, sh: Writes, pl: Writes, k: StateKey)
    requires !SelfTransfer(tx) && Funded(m, fb, tx, sh) && Refines(m, fb, sh, pl)
    ensures Get(PlainStep(fb, tx, pl), k) == PlainGet(fb, pl, ChangeOf(m, fb, tx, sh), k)
  {
    match tx.txType
    case Transfer(s, _, _) => PlainTransferEffect(m, fb, tx, sh, pl, k);
    case Mint(_, _) =>
    case Burn(a, _) => assert AccountRefines(m, fb, sh, pl, a);
    case InitBalance(_, _) =>
  }

  lemma PlainTransferEffect(m: Manager, fb: Value, tx: StablecoinTx, sh: Writes, pl: Writes, k: StateKey)
    requires tx.txType.Transfer? && !SelfTransfer(tx) && Funded(m, fb, tx, sh) && Refines(m, fb, sh, pl)
    ensures Get(PlainStep(fb, tx, pl), k) == PlainGet(fb, pl, ChangeOf(m, fb, tx, sh), k)
  {
    assert AccountRefines(m, fb, sh, pl, tx.txType.sender);
  }

  // --- One change preserves the refinement, account by account ---

  lemma DebitRefines(m: Manager, fb: Value, tx: StablecoinTx, sh: Writes, sh': Writes, ch: Change, a: nat)
    requires ch.debit == Some(a)
    requires forall k :: Get(sh', k) == ShardedGet(m, fb, tx, sh, ch, k)
    ensures FullBalance(m, fb, sh', a) == ch.bal && Touched(sh', a)
  {
    assert Get(sh', Balance(a)) == Some(ch.bal);
    if m.IsHot(a) {
      forall c: nat | c < m.Count(a) ensures U64Of(sh', Delta(a, c)) == 0 {
        assert Get(sh', Delta(a, c)) == ShardedGet(m, fb, tx, sh, ch, Delta(a, c));
      }
      ShardSumZero(sh', a, m.Count(a));
    }
  }

  lemma CreditRefines(m: Manager, fb: Value, tx: StablecoinTx, sh: Writes, sh': Writes, ch: Change, a: nat)
    requires ch.credit == Some(a) && ch.debit != Some(a)
    requires forall k :: Get(sh', k) == ShardedGet(m, fb, tx, sh, ch, k)
    ensures FullBalance(m, fb, sh', a) == FullBalance(m, fb, sh, a) + ch.x && Touched(sh', a)
  {
    var key := CreditKey(m, a, tx.txHash);
    assert Get(sh', key) == Some(CreditOf(m, fb, tx, a, sh) + ch.x);
    assert Get(sh', Balance(a)) == ShardedGet(m, fb, tx, sh, ch, Balance(a));
    if m.IsHot(a) {
      assert Delta(a, key.shard) in sh';
      forall c: nat | c < m.Count(a) && c != key.shard ensures U64Of(sh', Delta(a, c)) == U64Of(sh, Delta(a, c)) {
        assert Get(sh', Delta(a, c)) == ShardedGet(m, fb, tx, sh, ch, Delta(a, c));
      }
      ShardSumCredit(sh, sh', a, m.Count(a), key.shard, ch.x);
    }
  }

  lemma OtherRefines(m: Manager, fb: Value, tx: StablecoinTx, sh: Writes, sh': Writes, ch: Change, a: nat)
    requires ch.credit != Some(a) && ch.debit != Some(a)
    requires forall k :: Get(sh', k) == ShardedGet(m, fb, tx, sh, ch, k)
    ensures FullBalance(m, fb, sh', a) == FullBalance(m, fb, sh, a) && (Touched(sh', a) <==> Touched(sh, a))
  {
    assert Get(sh', Balance(a)) == Get(sh, Balance(a));
    forall c: nat ensures Get(sh', Delta(a, c)) == Get(sh, Delta(a, c)) {
      assert Get(sh', Delta(a, c)) == ShardedGet(m, fb, tx, sh, ch, Delta(a, c));
    }
    assert forall c: nat :: Delta(a, c) in sh' <==> Get(sh', Delta(a, c)).Some?;
    assert forall c: nat :: Delta(a, c) in sh <==> Get(sh, Delta(a, c)).Some?;
    if m.IsHot(a) { ShardSumEqual(sh, sh', a, m.Count(a)); }
  }

  lemma AccountAfter(
      m: Manager, fb: Value, tx: StablecoinTx, sh: Writes, pl: Writes, sh': Writes, pl': Writes, ch: Change, a: nat)
    requires AccountRefines(m, fb, sh, pl, a) && (ch.debit.Some? ==> ch.credit != ch.debit)
    requires forall k :: Get(sh', k) == ShardedGet(m, fb, tx, sh, ch, k)
    requires forall k :: Get(pl', k) == PlainGet(fb, pl, ch, k)
    ensures AccountRefines(m, fb, sh', pl', a)
  {
    assert Get(pl', Balance(a)) == PlainGet(fb, pl, ch, Balance(a));
    assert Get(sh', Nonce(a)) == ShardedGet(m, fb, tx, sh, ch, Nonce(a)) &&
           Get(pl', Nonce(a)) == PlainGet(fb, pl, ch, Nonce(a));
    if ch.debit == Some(a) { DebitRefines(m, fb, tx, sh, sh', ch, a); }
    else if ch.credit == Some(a) { CreditRefines(m, fb, tx, sh, sh', ch, a); }
    else { OtherRefines(m, fb, tx, sh, sh', ch, a); }
  }

  /**
   Each step of the sharded executor matches one step of the plain ledger,
   unless its write list names a key twice.
   */
  lemma StepRefines(m: Manager, fb: Value, tx: StablecoinTx, sh: Writes, pl: Writes)
    requires Refines(m, fb, sh, pl) && !(SelfTransfer(tx) && Funded(m, fb, tx, sh))
    ensures Refines(m, fb, sh + ShardedWrites(m, fb, tx, sh), PlainStep(fb, tx, pl))
  {
    var sh', pl' := sh + ShardedWrites(m, fb, tx, sh), PlainStep(fb, tx, pl);
    if !Funded(m, fb, tx, sh) {
      assert AccountRefines(m, fb, sh, pl, if tx.txType.Transfer? then tx.txType.sender else tx.txType.from);
      assert sh' == sh && pl' == pl;
    } else {
      var ch := ChangeOf(m, fb, tx, sh);
      forall k ensures Get(sh', k) == ShardedGet(m, fb, tx, sh, ch, k) { ShardedEffect(m, fb, tx, sh, k); }
      forall k ensures Get(pl', k) == PlainGet(fb, pl, ch, k) { PlainEffect(m, fb, tx, sh, pl, k); }
      FundedRefines(m, fb, tx, sh, pl, sh', pl', ch);
    }
  }

  lemma FundedRefines(
      m: Manager, fb: Value, tx: StablecoinTx, sh: Writes, pl: Writes, sh': Writes, pl': Writes, ch: Change)
    requires Refines(m, fb, sh, pl) && (ch.debit.Some? ==> ch.credit != ch.debit)
    requires forall k :: Get(sh', k) == ShardedGet(m, fb, tx, sh, ch, k)
    requires forall k :: Get(pl', k) == PlainGet(fb, pl, ch, k)
    ensures Refines(m, fb, sh', pl')
  {
    forall a: nat ensures AccountRefines(m, fb, sh', pl', a) {
      assert AccountRefines(m, fb, sh, pl, a);
      AccountAfter(m, fb, tx, sh, pl, sh', pl', ch, a);
    }
    assert Get(sh', TotalSupply) == ShardedGet(m, fb, tx, sh, ch, TotalSupply);
    assert Get(pl', TotalSupply) == PlainGet(fb, pl, ch, TotalSupply);
    forall a: nat, c: nat | Delta(a, c) in sh' ensures m.IsHot(a) && c < m.Count(a) {
      assert Get(sh', Delta(a, c)) == ShardedGet(m, fb, tx, sh, ch, Delta(a, c));
    }
    forall a: nat, c: nat ensures Delta(a, c) !in pl' {
      assert Get(pl', Delta(a, c)) == PlainGet(fb, pl, ch, Delta(a, c));
    }
  }

  // --- Whole blocks ---

  /** A transfer from an account to itself that passes its balance check. */
  predicate PaysItself(fb: Value, tx: StablecoinTx, pl: Writes) {
    SelfTransfer(tx) && BalanceOf(fb, pl, tx.txType.sender) >= tx.txType.amount
  }

  /** No transaction of the block pays its own sender when its turn comes. */
  ghost predicate NonePaysItself(fb: Value, txs: seq<StablecoinTx>) {
    forall i: nat | i < |txs| :: !PaysItself(fb, txs[i], PlainLedger(fb, txs[..i]))
  }

  lemma NonePaysBefore(fb: Value, txs: seq<StablecoinTx>, j: nat)
    requires NonePaysItself(fb, txs) && j <= |txs|
    ensures NonePaysItself(fb, txs[..j])
  {
    forall i: nat | i < j ensures !PaysItself(fb, txs[..j][i], PlainLedger(fb, txs[..j][..i])) {
      assert txs[..j][..i] == txs[..i];
    }
  }

  lemma EmptyRefines(m: Manager, fb: Value)
    ensures Refines(m, fb, map[], map[])
  {
    forall a: nat ensures AccountRefines(m, fb, map[], map[], a) {
      if m.IsHot(a) { ShardSumZero(map[], a, m.Count(a)); }
    }
  }

  /** The sharded block, run one by one, stands for the plain ledger: for every shard assignment and funded balance. */
  lemma {:induction false} BlockRefines(m: Manager, fb: Value, txs: seq<StablecoinTx>)
    requires NonePaysItself(fb, txs)
    ensures Refines(m, fb, SerialState(AsBlock(m, fb, txs)), PlainLedger(fb, txs))
  {
    if txs == [] {
      EmptyRefines(m, fb);
    } else {
      var last := |txs| - 1;
      NonePaysBefore(fb, txs, last);
      BlockRefines(m, fb, txs[..last]);
      assert AsBlock(m, fb, txs)[..last] == AsBlock(m, fb, txs[..last]);
      var before := SerialState(AsBlock(m, fb, txs[..last]));
      RunIsSharded(m, fb, txs[last], before);
      if SelfTransfer(txs[last]) {
        assert AccountRefines(m, fb, before, PlainLedger(fb, txs[..last]), txs[last].txType.sender);
      }
      StepRefines(m, fb, txs[last], before, PlainLedger(fb, txs[..last]));
    }
  }

  // --- Folding the shards back into the balances ---

  ghost predicate ShardsBelow(sh: Writes, bound: nat) {
    forall a: nat, c: nat | Delta(a, c) in sh :: c < bound
  }

  /** Key `k` after the fold: shards are added to the base entry, which defaults to 0, and removed. */
  ghost function FoldGet(sh: Writes, bound: nat, k: StateKey): Option<Value> {
    match k
    case Balance(a) => if Touched(sh, a) then Some(U64Of(sh, k) + ShardSum(sh, a, bound)) else None
    case Delta(_, _) => None
    case _ => Get(sh, k)
  }

  function DeltaKeys(sh: Writes): set<StateKey> {
    set k | k in sh && k.Delta?
  }

  /** Partial fold: the shards in `todo` are still to be added. */
  ghost predicate PartlyFolded(sh: Writes, bound: nat, todo: set<StateKey>, r: Writes) {
    && (forall a: nat :: Get(r, Balance(a)) == FoldGet(sh - todo, bound, Balance(a)))
    && (forall k: StateKey | !k.Balance? :: Get(r, k) == Get(sh, k))
  }

  lemma FoldOne(sh: Writes, bound: nat, todo: set<StateKey>, r: Writes, k: StateKey)
    requires ShardsBelow(sh, bound) && todo <= DeltaKeys(sh) && k in todo && PartlyFolded(sh, bound, todo, r)
    ensures PartlyFolded(sh, bound, todo - {k}, r[Balance(k.account) := U64Of(r, Balance(k.account)) + sh[k]])
  {
    var r' := r[Balance(k.account) := U64Of(r, Balance(k.account)) + sh[k]];
    var st, st' := sh - todo, sh - (todo - {k});
    forall a: nat ensures Get(r', Balance(a)) == FoldGet(st', bound, Balance(a)) {
      assert Get(r, Balance(a)) == FoldGet(st, bound, Balance(a));
      assert Get(st', Balance(a)) == Get(st, Balance(a));
      forall c: nat | Delta(a, c) != k ensures Get(st', Delta(a, c)) == Get(st, Delta(a, c)) {
      }
      if a == k.account {
        assert k == Delta(a, k.shard) && k in st' && k !in st;
        ShardSumCredit(st, st', a, bound, k.shard, sh[k]);
        if !Touched(st, a) { UntouchedSum(st, a, bound); }
      } else {
        ShardSumEqual(st, st', a, bound);
        assert forall c: nat :: Delta(a, c) in st' <==> Delta(a, c) in st;
      }
    }
  }

  lemma UntouchedSum(sh: Writes, a: nat, bound: nat)
    requires forall c: nat :: Delta(a, c) !in sh
    ensures ShardSum(sh, a, bound) == 0
  {
    ShardSumZero(sh, a, bound);
  }

  /** The fold at the end of the sharded execution; the keys come in any order. */
  method FoldDeltas(sh: Writes, ghost bound: nat) returns (r: Writes)
    requires ShardsBelow(sh, bound)
    ensures forall k :: Get(r, k) == FoldGet(sh, bound, k)
  {
    var keys := DeltaKeys(sh);
    r := sh;
    var todo := keys;
    FoldStart(sh, bound);
    while todo != {}
      invariant todo <= keys && PartlyFolded(sh, bound, todo, r)
      decreases |todo|
    {
      var k :| k in todo;
      FoldOne(sh, bound, todo, r, k);
      r := r[Balance(k.account) := U64Of(r, Balance(k.account)) + sh[k]];
      todo := todo - {k};
    }
    assert sh - {} == sh;
    ghost var folded := r;
    todo := keys;
    while todo != {}
      invariant todo <= keys && r == folded - (keys - todo)
      decreases |todo|
    {
      var k :| k in todo;
      r := r - {k};
      todo := todo - {k};
    }
    assert keys - {} == keys;
    forall k ensures Get(r, k) == FoldGet(sh, bound, k) {
      if k.Delta? && k in folded { assert Get(folded, k) == Get(sh, k); }
    }
  }

  lemma FoldStart(sh: Writes, bound: nat)
    ensures PartlyFolded(sh, bound, DeltaKeys(sh), sh)
  {
    var st := sh - DeltaKeys(sh);
    forall a: nat ensures Get(sh, Balance(a)) == FoldGet(st, bound, Balance(a)) {
      assert Get(st, Balance(a)) == Get(sh, Balance(a));
      UntouchedSum(st, a, bound);
    }
  }

  // --- When the fold gives the plain state ---

  lemma {:induction false} ShardSumTail(sh: Writes, a: nat, p: nat, q: nat)
    requires p <= q && forall c: nat | p <= c :: Delta(a, c) !in sh
    ensures ShardSum(sh, a, q) == ShardSum(sh, a, p)
  {
    if p == q {
    } else {
      ShardSumTail(sh, a, p, q - 1);
    }
  }

  lemma BoundedSum(m: Manager, fb: Value, sh: Writes, bound: nat, a: nat)
    requires ValidKeys(m, sh) && ShardsBelow(sh, bound)
    ensures FullBalance(m, fb, sh, a) == BalanceOf(fb, sh, a) + ShardSum(sh, a, bound)
  {
    if m.IsHot(a) {
      var p := m.Count(a);
      if p <= bound { ShardSumTail(sh, a, p, bound); } else { ShardSumTail(sh, a, bound, p); }
    } else {
      UntouchedSum(sh, a, bound);
    }
  }

  /** No account has shards without a base entry. */
  ghost predicate ShardsHaveBase(sh: Writes) {
    forall a: nat, c: nat | Delta(a, c) in sh :: Balance(a) in sh
  }

  /** The folded state is the plain one exactly when nothing is pre-funded or every sharded account has a base entry. */
  lemma FoldIsPlainIff(m: Manager, fb: Value, sh: Writes, pl: Writes, bound: nat)
    requires Refines(m, fb, sh, pl) && ShardsBelow(sh, bound)
    ensures (forall k :: FoldGet(sh, bound, k) == Get(pl, k)) <==> fb == 0 || ShardsHaveBase(sh)
  {
    forall a: nat ensures Balance(a) in pl ==>
        Balance(a) in pl && pl[Balance(a)] == BalanceOf(fb, sh, a) + ShardSum(sh, a, bound) && Touched(sh, a)
    {
      assert AccountRefines(m, fb, sh, pl, a);
      BoundedSum(m, fb, sh, bound, a);
    }
    if fb == 0 || ShardsHaveBase(sh) {
      forall k ensures FoldGet(sh, bound, k) == Get(pl, k) {
        if k.Balance? || k.Nonce? { assert AccountRefines(m, fb, sh, pl, k.account); }
      }
    } else {
      var a: nat, c: nat :| Delta(a, c) in sh && Balance(a) !in sh;
      assert AccountRefines(m, fb, sh, pl, a);
      assert Touched(sh, a);
      assert FoldGet(sh, bound, Balance(a)) != Get(pl, Balance(a));
    }
  }

  // --- Distinct keys ---

  /** The write list of execute_transaction. */
  function ExecList(m: Manager, fb: Value, tx: StablecoinTx, sh: Writes): WriteList {
    if !Funded(m, fb, tx, sh) then []
    else
      match tx.txType
      case Transfer(s, r, _) =>
        TransferWrites(m, tx, FullBalance(m, fb, sh, s), U64Of(sh, Nonce(s)), CreditOf(m, fb, tx, r, sh))
      case Mint(to, _) => MintWrites(m, tx, U64Of(sh, TotalSupply), U64Of(sh, Nonce(0)), CreditOf(m, fb, tx, to, sh))
      case Burn(from, _) => BurnWrites(m, tx, FullBalance(m, fb, sh, from), U64Of(sh, TotalSupply), U64Of(sh, Nonce(0)))
      case InitBalance(_, _) => InitWrites(m, tx)
  }

  predicate DistinctKeys(list: WriteList) {
    forall i, j | 0 <= i < j < |list| :: list[i].0 != list[j].0
  }

  lemma TransferKeys(m: Manager, tx: StablecoinTx, bal: Value, nonce: Value, credit: Value)
    requires tx.txType.Transfer?
    ensures DistinctKeys(TransferWrites(m, tx, bal, nonce, credit)) <==> !SelfTransfer(tx)
  {
    var list := TransferWrites(m, tx, bal, nonce, credit);
    var s := tx.txType.sender;
    if SelfTransfer(tx) {
      if m.IsHot(s) {
        var c := m.DeltaKey(s, tx.txHash).shard;
        assert list[3 + c].0 == Delta(s, c) == list[1].0;
      } else {
        assert list[0].0 == list[1].0;
      }
    }
  }

  lemma BurnKeys(m: Manager, tx: StablecoinTx, bal: Value, supply: Value, nonce: Value)
    requires tx.txType.Burn?
    ensures DistinctKeys(BurnWrites(m, tx, bal, supply, nonce))
  {
  }

  /**
   The writes of a transaction name a key twice, which the multi-version memory
   rejects, exactly when it is a self-transfer that passes the balance check.
   */
  lemma DistinctKeysIff(m: Manager, fb: Value, tx: StablecoinTx, sh: Writes)
    ensures ToMap(ExecList(m, fb, tx, sh)) == ShardedWrites(m, fb, tx, sh)
    ensures DistinctKeys(ExecList(m, fb, tx, sh)) <==> !(SelfTransfer(tx) && Funded(m, fb, tx, sh))
  {
    match tx.txType
    case Transfer(s, r, _) =>
      TransferKeys(m, tx, FullBalance(m, fb, sh, s), U64Of(sh, Nonce(s)), CreditOf(m, fb, tx, r, sh));
    case Burn(from, _) =>
      BurnKeys(m, tx, FullBalance(m, fb, sh, from), U64Of(sh, TotalSupply), U64Of(sh, Nonce(0)));
    case _ =>
  }
}
