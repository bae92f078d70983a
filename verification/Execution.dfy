/**
 The parallel executor on stablecoin blocks, from a run of the protocol to the
 state its callers rebuild.
 */
module Execution {
  import opened State
  import opened Protocol
  import opened Runs
  import opened Serial
  import opened Stablecoin
  import opened HotDelta
  import opened Outcome

  lemma SameGets(x: Writes, y: Writes)
    requires forall k :: Get(x, k) == Get(y, k)
    ensures x == y
  {
    forall k ensures k in x <==> k in y {
      assert Get(x, k) == Get(y, k);
    }
    forall k | k in x ensures x[k] == y[k] {
      assert Get(x, k) == Get(y, k);
    }
  }

  /** Without shards the serial execution of the block is the plain ledger, for every funded balance. */
  lemma UnshardedIsLedger(m: Manager, fb: Value, txs: seq<StablecoinTx>)
    requires m.counts == map[] && NonePaysItself(fb, txs)
    ensures SerialState(AsBlock(m, fb, txs)) == PlainLedger(fb, txs)
  {
    BlockRefines(m, fb, txs);
    var sh, pl := SerialState(AsBlock(m, fb, txs)), PlainLedger(fb, txs);
    forall k ensures Get(sh, k) == Get(pl, k) {
      match k {
        case Balance(a) => assert AccountRefines(m, fb, sh, pl, a) && forall c: nat :: Delta(a, c) !in sh;
        case Nonce(a) => assert AccountRefines(m, fb, sh, pl, a);
        case TotalSupply =>
        case Delta(a, c) =>
      }
    }
    SameGets(sh, pl);
  }

  /** With nothing pre-funded the folded state is the plain ledger, for every shard assignment. */
  lemma FoldedIsLedger(m: Manager, txs: seq<StablecoinTx>, bound: nat, r: Writes)
    requires NonePaysItself(0, txs)
    requires ShardsBelow(SerialState(AsBlock(m, 0, txs)), bound)
    requires forall k :: Get(r, k) == FoldGet(SerialState(AsBlock(m, 0, txs)), bound, k)
    ensures r == PlainLedger(0, txs)
  {
    BlockRefines(m, 0, txs);
    var sh, pl := SerialState(AsBlock(m, 0, txs)), PlainLedger(0, txs);
    FoldIsPlainIff(m, 0, sh, pl, bound);
    forall k ensures Get(r, k) == Get(pl, k) {
      assert Get(r, k) == FoldGet(sh, bound, k);
    }
    SameGets(r, pl);
  }

  /** Applies the writes of all outputs in index order to an empty hash map. */
  method RebuildState(outputs: seq<Writes>) returns (state: Writes)
    ensures state == Replay(outputs)
  {
    state := map[];
    for i := 0 to |outputs|
      invariant state == Replay(outputs[..i])
    {
      ghost var before := state;
      var todo := outputs[i].Keys;
      while todo != {}
        invariant todo <= outputs[i].Keys
        invariant state == before + map k | k in outputs[i] && k !in todo :: outputs[i][k]
        decreases |todo|
      {
        var k :| k in todo;
        state := state[k := outputs[i][k]];
        todo := todo - {k};
      }
      assert outputs[..i + 1][..i] == outputs[..i];
      assert outputs[i] == map k | k in outputs[i] && k !in todo :: outputs[i][k];
    }
    assert outputs[..|outputs|] == outputs;
  }

  /** Some bound on the shard numbers of a state; it exists because the state is finite. */
  lemma BoundShards(keys: set<StateKey>) returns (bound: nat)
    ensures forall k | k in keys && k.Delta? :: k.shard < bound
    decreases |keys|
  {
    bound := 0;
    if keys != {} {
      var k :| k in keys;
      bound := BoundShards(keys - {k});
      if k.Delta? && k.shard >= bound { bound := k.shard + 1; }
    }
  }

  /** The outputs the executor recorded, all of them successes. */
  function Recorded(outs: seq<Option<Writes>>): seq<Option<ExecutionStatus<Writes>>> {
    seq(|outs|, i requires 0 <= i < |outs| => if outs[i].Some? then Some(Success(outs[i].value)) else None)
  }

  /** Collecting never fails after a finished run, and returns the outputs of the run. */
  method Collect(ghost cf: Config, outs: seq<Option<Writes>>, ghost a: Shared) returns (outputs: seq<Writes>)
    requires Settled(cf, a) && outs == a.outs
    ensures outputs == Outputs(a)
  {
    var recorded := Recorded(outs);
    assert UsableBelow(recorded, |recorded|, |recorded|);
    var r := CollectOutputs(recorded, map[]);
    outputs := r.value;
    forall i | 0 <= i < |outs| ensures outputs[i] == Outputs(a)[i] {
      assert Some(outputs[i]) == OutputOf(recorded[i]);
    }
  }

  /**
   parallel_execute_to_state: in every interleaving of every number of workers,
   with or without throttling, the result is the state of the serial ledger.
   */
  method ParallelExecuteToState(
      ghost cf: Config, ghost run: seq<System>, ghost m: Manager, ghost fb: Value, ghost txs: seq<StablecoinTx>,
      outs: seq<Option<Writes>>) returns (state: Writes)
    requires cf.block == AsBlock(m, fb, txs) && m.counts == map[] && NonePaysItself(fb, txs)
    requires IsRun(cf, run) && Last(run).sh.done && outs == Last(run).sh.outs
    ensures state == PlainLedger(fb, txs)
  {
    SerialEquivalence(cf, run);
    UnshardedIsLedger(m, fb, txs);
    var outputs := Collect(cf, outs, Last(run).sh);
    state := RebuildState(outputs);
  }

  /**
   parallel_execute_to_state_with_hot_delta: in every interleaving and for every
   shard assignment, the rebuilt and folded state is the serial ledger.
   */
  method ParallelExecuteWithHotDelta(
      ghost cf: Config, ghost run: seq<System>, ghost m: Manager, ghost txs: seq<StablecoinTx>,
      outs: seq<Option<Writes>>) returns (state: Writes)
    requires cf.block == AsBlock(m, 0, txs) && NonePaysItself(0, txs)
    requires IsRun(cf, run) && Last(run).sh.done && outs == Last(run).sh.outs
    ensures state == PlainLedger(0, txs)
  {
    SerialEquivalence(cf, run);
    var outputs := Collect(cf, outs, Last(run).sh);
    var sharded := RebuildState(outputs);
    ghost var bound := BoundShards(sharded.Keys);
    state := FoldDeltas(sharded, bound);
    FoldedIsLedger(m, txs, bound, state);
  }
}
