/**
 A run in which a worker comes to write the output of a transfer from an account
 to itself: the output names the balance twice, and the memory refuses it.
 */
module SelfPayment {
  import opened State
  import opened Protocol
  import opened Runs
  import opened Stablecoin
  import opened SpeculativeBurn
  import Speculation

  function ToItself(g: nat): StablecoinTx {
    StablecoinTx(Transfer(1, 1, 0), 0, g)
  }

  /** One worker, no throttling. */
  function OneConfig(m: Manager, g: nat): Config {
    Config(AsBlock(m, 0, [ToItself(g)]), 1, 0, [], [])
  }

  function TransferLog(): seq<ReadDesc> {
    [Missed(Balance(1)), Missed(Nonce(1)), Missed(Balance(1))]
  }

  lemma TransferOps(m: Manager, g: nat)
    requires m.counts == map[]
    ensures forall x: nat | x < 3 ::
              OneConfig(m, g).block[0].op(Vals(TransferLog()[..x])) == Read(TransferLog()[x].key)
    ensures NextOp(m, 0, ToItself(g), Vals(TransferLog())).Finish?
    ensures Speculation.FundedOn(m, 0, ToItself(g), Vals(TransferLog()))
  {
    var log := TransferLog();
    var values: seq<Option<Value>> := [None, None, None];
    assert Vals(log[..0]) == [] && Vals(log[..1]) == values[..1] && Vals(log[..2]) == values[..2] &&
           Vals(log) == values;
    assert SumZero(values[..1][1..1]) == 0 && SumZero(values[..2][1..1]) == 0 && SumZero(values[1..1]) == 0;
  }

  lemma TransferExecuted(m: Manager, g: nat) returns (run: seq<System>)
    requires m.counts == map[]
    ensures IsRun(OneConfig(m, g), run) && Last(run).threads == [Run(0, 0, Exec(TransferLog()))]
  {
    var cf := OneConfig(m, g);
    var a := Shared(0, 0, 0, 0, false, [ReadyToExecute(0)], [[]], [map[]], [None], [None]);
    assert Init(cf, System(a, [Sched(Idle)]));
    run := [System(a, [Sched(Idle)])];
    run := ToFetch(cf, run, 0);
    run := Begin(cf, run, 0, 0);
    TransferOps(m, g);
    assert TransferLog()[..0] == [];
    run := ReadAll(cf, run, 0, 0, TransferLog(), 0);
  }

  /** The write of its output is then refused. */
  lemma SelfPaymentRefused(m: Manager, g: nat) returns (run: seq<System>, log: seq<ReadDesc>)
    requires m.counts == map[]
    ensures IsRun(OneConfig(m, g), run) && Last(run).threads == [Run(0, 0, Exec(log))] && |Last(run).sh.mv| == 1
    ensures NextOp(m, 0, ToItself(g), Vals(log)).Finish?
    ensures !Speculation.Accepts(Last(run).sh.mv[0], 0, Speculation.ListOn(m, 0, ToItself(g), Vals(log)))
  {
    log := TransferLog();
    run := TransferExecuted(m, g);
    TransferOps(m, g);
    Speculation.WritesAcceptedIff(OneConfig(m, g), run, |run| - 1, 0, m, 0, [ToItself(g)]);
  }
}
