/**
 A run in which a burn is executed between the two writes of a mint: it sees
 the minted balance, not yet the minted supply, and computes a negative supply.
 */
module SpeculativeBurn {
  import opened State
  import opened Protocol
  import opened Runs
  import opened Stablecoin
  import HotDelta
  import Speculation

  /** One more step of thread `t`. */
  lemma Go(cf: Config, run: seq<System>, t: nat, b: Shared, pc': Pc) returns (run': seq<System>)
    requires IsRun(cf, run) && WellSized(|cf.block|, Last(run).sh) && t < |Last(run).threads|
    requires Wants(Last(run).threads[t]).None? && Move(cf, Last(run).sh, Last(run).threads[t], b, pc')
    ensures IsRun(cf, run') && Last(run') == System(b, Last(run).threads[t := pc'])
  {
    var s' := System(b, Last(run).threads[t := pc']);
    run' := run + [s'];
    assert Step(cf, Last(run), t, s');
    forall p: nat | p + 1 < |run'| ensures StepsAt(cf, run', p) {
      if p + 1 < |run| { assert StepsAt(cf, run, p); }
    }
  }

  /** A worker that finds both indices equal and inside the block is about to fetch a transaction to execute. */
  lemma ToFetch(cf: Config, run: seq<System>, t: nat) returns (run': seq<System>)
    requires IsRun(cf, run) && WellSized(|cf.block|, Last(run).sh) && t < |Last(run).threads| && cf.bounds == []
    requires Last(run).threads[t] == Sched(Idle) && !Last(run).sh.done
    requires Last(run).sh.exec == Last(run).sh.val < |cf.block|
    ensures IsRun(cf, run')
    ensures Last(run').sh == Last(run).sh.(active := Last(run).sh.active + 1)
    ensures Last(run').threads == Last(run).threads[t := Claim(ExecFetch)]
  {
    var a := Last(run).sh;
    run' := Go(cf, run, t, a, Sched(LoadVal));
    run' := Go(cf, run', t, a, Sched(LoadExec(a.val)));
    run' := Go(cf, run', t, a, Sched(TryExec));
    run' := Go(cf, run', t, a, Sched(ExecGuard));
    run' := Go(cf, run', t, a.(active := a.active + 1), Claim(ExecFetch));
  }

  /** It gets the next transaction and begins to execute its first incarnation. */
  lemma Begin(cf: Config, run: seq<System>, t: nat, i: nat) returns (run': seq<System>)
    requires IsRun(cf, run) && WellSized(|cf.block|, Last(run).sh) && t < |Last(run).threads|
    requires Last(run).threads[t] == Claim(ExecFetch) && Last(run).sh.exec == i < |cf.block|
    requires Last(run).sh.status[i] == ReadyToExecute(0) && Last(run).sh.ins[i] == None
    ensures IsRun(cf, run')
    ensures var a := Last(run).sh;
            Last(run') == System(a.(exec := i + 1, status := a.status[i := Executing(0)]),
                                 Last(run).threads[t := Run(i, 0, Exec([]))])
  {
    var a := Last(run).sh.(exec := i + 1);
    run' := Go(cf, run, t, a, Claim(ExecStatus(i)));
    var b := a.(status := a.status[i := Executing(0)]);
    run' := Go(cf, run', t, b, Run(i, 0, LoadReads));
    run' := Go(cf, run', t, b, Run(i, 0, Pre([])));
    run' := Go(cf, run', t, b, Run(i, 0, Exec([])));
  }

  /** One read of an execution. */
  lemma ReadOnce(cf: Config, run: seq<System>, t: nat, i: nat, log: seq<ReadDesc>, r: ReadDesc)
    returns (run': seq<System>)
    requires IsRun(cf, run) && WellSized(|cf.block|, Last(run).sh) && t < |Last(run).threads| && i < |cf.block|
    requires Last(run).threads[t] == Run(i, 0, Exec(log)) && cf.block[i].op(Vals(log)) == Read(r.key)
    requires Finds(Last(run).sh.mv, i, r)
    ensures IsRun(cf, run')
    ensures Last(run') == System(Last(run).sh, Last(run).threads[t := Run(i, 0, Exec(log + [r]))])
  {
    run' := Go(cf, run, t, Last(run).sh, Run(i, 0, Exec(log + [r])));
  }

  /** What `r` records is what a reader at `i` finds. */
  ghost predicate Finds(mv: Memory, i: nat, r: ReadDesc)
    requires i <= |mv|
  {
    match Latest(mv, r.key, i)
    case Hit(v, x) => r.src == Some(v) && r.val == Some(x)
    case Miss => r.src == None && r.val == None
    case Blocked(_) => false
  }

  /** All reads of an execution, one after the other. */
  lemma {:induction false} ReadAll(cf: Config, run: seq<System>, t: nat, i: nat, log: seq<ReadDesc>, j: nat)
    returns (run': seq<System>)
    requires IsRun(cf, run) && WellSized(|cf.block|, Last(run).sh) && t < |Last(run).threads| && i < |cf.block|
    requires j <= |log| && Last(run).threads[t] == Run(i, 0, Exec(log[..j]))
    requires forall x: nat | j <= x < |log| :: cf.block[i].op(Vals(log[..x])) == Read(log[x].key)
    requires forall x: nat | j <= x < |log| :: Finds(Last(run).sh.mv, i, log[x])
    ensures IsRun(cf, run')
    ensures Last(run') == System(Last(run).sh, Last(run).threads[t := Run(i, 0, Exec(log))])
    decreases |log| - j
  {
    if j == |log| {
      assert log[..j] == log;
      run' := run;
    } else {
      assert log[..j] + [log[j]] == log[..j + 1];
      run' := ReadOnce(cf, run, t, i, log[..j], log[j]);
      run' := ReadAll(cf, run', t, i, log, j + 1);
    }
  }

  function Missed(k: StateKey): ReadDesc {
    ReadDesc(k, None, None)
  }

  function TheBlock(m: Manager, h: nat, g: nat): seq<StablecoinTx> {
    [StablecoinTx(Mint(1, 10), 0, h), StablecoinTx(Burn(1, 10), 1, g)]
  }

  /** Two workers, no throttling. */
  function TheConfig(m: Manager, h: nat, g: nat): Config {
    Config(AsBlock(m, 0, TheBlock(m, h, g)), 2, 0, [], [])
  }

  /** Both workers have fetched their transaction and begun to execute it. */
  ghost predicate BothBegun(s: System, mv0: map<StateKey, Cell>) {
    && WellSized(2, s.sh) && |s.threads| == 2
    && s.sh.mv[0] == mv0 && s.sh.mv[1] == map[] && s.sh.outs == [None, None]
  }

  lemma Start(m: Manager, h: nat, g: nat) returns (run: seq<System>)
    ensures IsRun(TheConfig(m, h, g), run) && BothBegun(Last(run), map[])
    ensures Last(run).threads == [Run(0, 0, Exec([])), Run(1, 0, Exec([]))]
  {
    var cf := TheConfig(m, h, g);
    var a := Shared(0, 0, 0, 0, false, seq(2, _ => ReadyToExecute(0)), seq(2, _ => []), seq(2, _ => map[]),
                    seq(2, _ => None), seq(2, _ => None));
    var s := System(a, seq(2, _ => Sched(Idle)));
    assert Init(cf, s);
    run := [s];
    run := ToFetch(cf, run, 0);
    run := ToFetch(cf, run, 1);
    run := Begin(cf, run, 0, 0);
    run := Begin(cf, run, 1, 1);
  }

  function MintLog(): seq<ReadDesc> {
    [Missed(TotalSupply), Missed(Nonce(0)), Missed(Balance(1))]
  }

  function MintWritten(): Writes {
    map[Balance(1) := 10, TotalSupply := 10, Nonce(0) := 1]
  }

  lemma MintReads(m: Manager, h: nat, g: nat)
    requires m.counts == map[]
    ensures forall x: nat | x < 3 :: TheConfig(m, h, g).block[0].op(Vals(MintLog()[..x])) == Read(MintLog()[x].key)
  {
    var log := MintLog();
    assert Vals(log[..0]) == [] && Vals(log[..1]) == [None] && Vals(log[..2]) == [None, None];
  }

  lemma MintFinishes(m: Manager, h: nat, g: nat)
    requires m.counts == map[]
    ensures TheConfig(m, h, g).block[0].op(Vals(MintLog())) == Finish(MintWritten())
  {
    assert Vals(MintLog()) == [None, None, None];
    HotDelta.ToMapThree((Balance(1), 10), (TotalSupply, 10), (Nonce(0), 1));
  }

  lemma MintExecuted(m: Manager, h: nat, g: nat) returns (run: seq<System>)
    requires m.counts == map[]
    ensures IsRun(TheConfig(m, h, g), run) && BothBegun(Last(run), map[])
    ensures Last(run).threads == [Run(0, 0, Exec(MintLog())), Run(1, 0, Exec([]))]
  {
    run := Start(m, h, g);
    MintReads(m, h, g);
    assert MintLog()[..0] == [];
    run := ReadAll(TheConfig(m, h, g), run, 0, 0, MintLog(), 0);
  }

  /** The mint has written the balance and not yet the supply. */
  lemma MintHalfWritten(m: Manager, h: nat, g: nat) returns (run: seq<System>)
    requires m.counts == map[]
    ensures IsRun(TheConfig(m, h, g), run) && BothBegun(Last(run), map[Balance(1) := Cell(false, 0, 10)])
    ensures Last(run).threads[1] == Run(1, 0, Exec([]))
  {
    var cf, w := TheConfig(m, h, g), MintWritten();
    run := MintExecuted(m, h, g);
    MintFinishes(m, h, g);
    var a, p := Last(run).sh, Apply(MintLog(), w, w.Keys, {}, false);
    run := Go(cf, run, 0, a, Run(0, 0, p));
    var b := a.(mv := a.mv[0 := map[Balance(1) := Cell(false, 0, 10)]]);
    var pc' := Run(0, 0, p.(left := w.Keys - {Balance(1)}, prev := {} - {Balance(1)}, outside := true));
    assert Balance(1) in p.left && WriteOne(a, 0, 0, p, b, pc', Balance(1));
    run := Go(cf, run, 0, b, pc');
  }

  function BurnLog(): seq<ReadDesc> {
    [ReadDesc(Balance(1), Some(Version(0, 0)), Some(10)), Missed(TotalSupply), Missed(Nonce(0))]
  }

  lemma BurnOps(m: Manager, h: nat, g: nat)
    requires m.counts == map[]
    ensures var op := TheConfig(m, h, g).block[1].op;
            && (forall x: nat | x < 3 :: op(Vals(BurnLog()[..x])) == Read(BurnLog()[x].key))
            && op(Vals(BurnLog())).Finish?
            && TotalSupply in op(Vals(BurnLog())).writes && op(Vals(BurnLog())).writes[TotalSupply] == -10
  {
    var log := BurnLog();
    var values: seq<Option<Value>> := [Some(10), None, None];
    assert Vals(log[..0]) == [] && Vals(log[..1]) == values[..1] && Vals(log[..2]) == values[..2] &&
           Vals(log) == values;
    assert SumZero(values[..1][1..1]) == 0 && SumZero(values[..2][1..1]) == 0;
    Speculation.BurnBetweenWrites(m, TheBlock(m, h, g)[1]);
  }

  lemma BurnFinds(mv: Memory, x: nat)
    requires |mv| == 2 && mv[0] == map[Balance(1) := Cell(false, 0, 10)] && x < 3
    ensures Finds(mv, 1, BurnLog()[x])
  {
    assert Latest(mv, BurnLog()[x].key, 0) == Miss;
  }

  lemma BurnExecuted(m: Manager, h: nat, g: nat) returns (run: seq<System>)
    requires m.counts == map[]
    ensures IsRun(TheConfig(m, h, g), run) && BothBegun(Last(run), map[Balance(1) := Cell(false, 0, 10)])
    ensures Last(run).threads[1] == Run(1, 0, Exec(BurnLog()))
  {
    run := MintHalfWritten(m, h, g);
    BurnOps(m, h, g);
    assert BurnLog()[..0] == [];
    forall x: nat | x < 3 ensures Finds(Last(run).sh.mv, 1, BurnLog()[x]) {
      BurnFinds(Last(run).sh.mv, x);
    }
    run := ReadAll(TheConfig(m, h, g), run, 1, 1, BurnLog(), 0);
  }

  /** The burn then computes a negative supply. */
  lemma BurnUnderflows(m: Manager, h: nat, g: nat) returns (run: seq<System>)
    requires m.counts == map[]
    ensures IsRun(TheConfig(m, h, g), run) && |Last(run).threads| == 2
    ensures var pc := Last(run).threads[1];
            && pc.Run? && pc.i == 1 && pc.rp.Apply?
            && TotalSupply in pc.rp.w && pc.rp.w[TotalSupply] == -10
  {
    var cf := TheConfig(m, h, g);
    run := BurnExecuted(m, h, g);
    BurnOps(m, h, g);
    var w := cf.block[1].op(Vals(BurnLog())).writes;
    run := Go(cf, run, 1, Last(run).sh, Run(1, 0, Apply(BurnLog(), w, w.Keys, {}, false)));
  }
}
