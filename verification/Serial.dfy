/**
 Serial equivalence: once the done marker is set, the recorded outputs are those
 of running the transactions one by one, and nothing was left behind.
 */
module Serial {
  import opened State
  import opened Protocol
  import opened Ownership
  import opened Footprint
  import opened ReadLog
  import opened Coverage
  import opened Progress
  import opened Termination
  import opened Runs

  // --- Nothing is left behind ---

  /** A resting thread has no claim on any transaction of the block. */
  lemma RestingHasNone(n: nat, pc: Pc, i: nat)
    requires Resting(n, pc) && i < n
    ensures DutyOf(pc) == NoDuty && !Fetches(pc, i) && !TakerOf(pc, i)
    ensures forall c, r :: !Covers(pc, i, c, r)
  {
  }

  lemma QuietHasNone(n: nat, s: System, i: nat)
    requires Quiet(n, s) && i < n
    ensures forall u: nat | u < |s.threads| :: DutyOf(s.threads[u]) == NoDuty
    ensures !Fetched(s, i) && !Taker(s, i)
    ensures forall u: nat, c, r | u < |s.threads| :: !Covers(s.threads[u], i, c, r)
  {
    forall u: nat | u < |s.threads|
      ensures DutyOf(s.threads[u]) == NoDuty && !Fetches(s.threads[u], i) && !TakerOf(s.threads[u], i)
      ensures forall c, r :: !Covers(s.threads[u], i, c, r)
    {
      RestingHasNone(n, s.threads[u], i);
    }
  }

  /** In a quiet state every transaction has been executed: the smallest that is not would wait on a smaller one. */
  lemma {:induction false} QuietExecuted(cf: Config, s: System, at: seq<Place>, hist: History, i: nat)
    requires Inv(cf, s, at, hist) && Quiet(|cf.block|, s) && i < |cf.block|
    ensures s.sh.status[i].Executed?
    decreases i
  {
    assert Placed(s.sh, s.threads, at, i);
    QuietHasNone(|cf.block|, s, i);
    if s.sh.status[i].Executing? && at[i].Parked? {
      assert Awaited(s, at[i].d);
      QuietHasNone(|cf.block|, s, at[i].d);
      QuietExecuted(cf, s, at, hist, at[i].d);
    }
  }

  /** In a quiet state every recorded read matches memory. */
  lemma QuietGood(cf: Config, s: System, at: seq<Place>, hist: History, i: nat, r: ReadDesc)
    requires Inv(cf, s, at, hist) && Quiet(|cf.block|, s) && i < |cf.block|
    requires s.sh.ins[i].Some? && r in s.sh.ins[i].value
    ensures Good(s.sh.mv, i, r)
  {
    QuietExecuted(cf, s, at, hist, i);
    assert IndexCovered(|cf.block|, s, i);
    assert Covered(s, i, r);
    QuietHasNone(|cf.block|, s, i);
  }

  // --- Memory against the serial state ---

  ghost function Outputs(a: Shared): seq<Writes>
    requires forall i | 0 <= i < |a.outs| :: a.outs[i].Some?
  {
    seq(|a.outs|, i requires 0 <= i < |a.outs| => a.outs[i].value)
  }

  /** If every index below `j` prints its output, a lookup below `j` reads the state after `j` outputs. */
  lemma {:induction false} LatestIsState(mv: Memory, incs: seq<nat>, outs: seq<Writes>, k: StateKey, j: nat)
    requires j <= |mv| == |outs| == |incs|
    requires forall i: nat | i < j :: Prints(mv[i], incs[i], outs[i])
    ensures match Latest(mv, k, j)
            case Hit(v, x) =>
              v.idx < j && v.inc == incs[v.idx] && k in mv[v.idx] && Get(Replay(outs[..j]), k) == Some(x)
            case Miss => Get(Replay(outs[..j]), k) == None
            case Blocked(_) => false
  {
    if j == 0 {
    } else {
      assert outs[..j][..j - 1] == outs[..j - 1];
      LatestIsState(mv, incs, outs, k, j - 1);
      assert Prints(mv[j - 1], incs[j - 1], outs[j - 1]);
    }
  }

  /** A transaction whose log carries the values of `state` computes what it would compute alone. */
  lemma {:induction false} FollowsAlone(txn: Txn, log: seq<ReadDesc>, w: Writes, state: Writes, m: nat)
    requires Complete(txn, log, w) && m <= |log|
    requires forall p | 0 <= p < |log| :: log[p].val == Get(state, log[p].key)
    ensures RunAlone(txn, state, Vals(log[..m])) == w
    decreases |log| - m
  {
    if m == |log| {
      assert log[..m] == log;
    } else {
      assert txn.op(Vals(log[..m])) == Read(log[m].key);
      assert Vals(log[..m]) + [Get(state, log[m].key)] == Vals(log[..m + 1]);
      FollowsAlone(txn, log, w, state, m + 1);
    }
  }

  // --- The theorem for quiet states ---

  ghost predicate Settled(cf: Config, a: Shared) {
    && WellSized(|cf.block|, a)
    && forall i | 0 <= i < |cf.block| :: a.status[i].Executed? && a.outs[i].Some?
  }

  ghost function Incs(a: Shared): seq<nat> {
    seq(|a.status|, i requires 0 <= i < |a.status| => a.status[i].inc)
  }

  lemma QuietSettled(cf: Config, s: System, at: seq<Place>, hist: History)
    requires Inv(cf, s, at, hist) && Quiet(|cf.block|, s)
    ensures Settled(cf, s.sh)
    ensures forall i: nat | i < |cf.block| :: Prints(s.sh.mv[i], Incs(s.sh)[i], Outputs(s.sh)[i])
  {
    forall i: nat | i < |cf.block|
      ensures s.sh.status[i].Executed? && s.sh.outs[i].Some?
      ensures Prints(s.sh.mv[i], s.sh.status[i].inc, s.sh.outs[i].value)
    {
      QuietExecuted(cf, s, at, hist, i);
      assert IndexPrint(s.sh, hist, i);
    }
  }

  /** Each recorded value is the value of the key in the state before the transaction. */
  lemma ValueIsState(cf: Config, s: System, at: seq<Place>, hist: History, i: nat, r: ReadDesc)
    requires Inv(cf, s, at, hist) && Quiet(|cf.block|, s) && Settled(cf, s.sh) && i < |cf.block|
    requires s.sh.ins[i].Some? && r in s.sh.ins[i].value
    ensures r.val == Get(Replay(Outputs(s.sh)[..i]), r.key)
  {
    QuietSettled(cf, s, at, hist);
    QuietGood(cf, s, at, hist, i, r);
    LatestIsState(s.sh.mv, Incs(s.sh), Outputs(s.sh), r.key, i);
    LatestKnownAll(cf, s, at, hist, r.key, i);
    assert IndexLogged(cf, s.sh, hist, i);
    var m :| 0 <= m < |s.sh.ins[i].value| && s.sh.ins[i].value[m] == r;
    assert Sourced(hist, i, s.sh.ins[i].value[m]);
  }

  lemma LatestKnownAll(cf: Config, s: System, at: seq<Place>, hist: History, k: StateKey, i: nat)
    requires Inv(cf, s, at, hist) && i < |cf.block|
    ensures var f := Latest(s.sh.mv, k, i); f.Hit? ==> Wrote(hist, f.ver, k, f.data)
  {
    forall j: nat | j < i ensures CellsKnown(hist, j, s.sh.mv[j]) {
      assert IndexPrint(s.sh, hist, j);
    }
    LatestKnown(s.sh.mv, k, i, hist);
  }

  /** The recorded output of `i` is the one it computes alone on the outputs before it. */
  lemma QuietOutput(cf: Config, s: System, at: seq<Place>, hist: History, i: nat)
    requires Inv(cf, s, at, hist) && Quiet(|cf.block|, s) && Settled(cf, s.sh) && i < |cf.block|
    ensures Outputs(s.sh)[i] == RunAlone(cf.block[i], Replay(Outputs(s.sh)[..i]), [])
  {
    assert IndexLogged(cf, s.sh, hist, i);
    var log, before := s.sh.ins[i].value, Replay(Outputs(s.sh)[..i]);
    forall p | 0 <= p < |log| ensures log[p].val == Get(before, log[p].key) {
      ValueIsState(cf, s, at, hist, i, log[p]);
    }
    FollowsAlone(cf.block[i], log, s.sh.outs[i].value, before, 0);
    assert Vals(log[..0]) == [];
  }

  /** Outputs computed one on top of the other are the serial state. */
  lemma {:induction false} ReplayIsSerial(block: seq<Txn>, outs: seq<Writes>, j: nat)
    requires j <= |block| == |outs|
    requires forall i: nat | i < |block| :: outs[i] == RunAlone(block[i], Replay(outs[..i]), [])
    ensures Replay(outs[..j]) == SerialState(block[..j])
  {
    if j == 0 {
    } else {
      assert block[..j][..j - 1] == block[..j - 1] && outs[..j][..j - 1] == outs[..j - 1];
      ReplayIsSerial(block, outs, j - 1);
    }
  }

  lemma QuietSerial(cf: Config, s: System, at: seq<Place>, hist: History)
    requires Inv(cf, s, at, hist) && Quiet(|cf.block|, s)
    ensures Settled(cf, s.sh) && Replay(Outputs(s.sh)) == SerialState(cf.block)
    ensures forall i: nat | i < |cf.block| :: Outputs(s.sh)[i] == RunAlone(cf.block[i], SerialState(cf.block[..i]), [])
  {
    QuietSettled(cf, s, at, hist);
    var outs := Outputs(s.sh);
    forall i: nat | i < |cf.block| ensures outs[i] == RunAlone(cf.block[i], Replay(outs[..i]), []) {
      QuietOutput(cf, s, at, hist, i);
    }
    forall i: nat | i < |cf.block| ensures Replay(outs[..i]) == SerialState(cf.block[..i]) {
      ReplayIsSerial(cf.block, outs, i);
    }
    ReplayIsSerial(cf.block, outs, |cf.block|);
    assert cf.block[..|cf.block|] == cf.block && outs[..|cf.block|] == outs;
  }

  // --- The theorem for runs ---

  /**
   Once done_marker is set, in any interleaving of any number of threads, every
   transaction is Executed, its recorded output is the one it computes alone on
   the serial state before it, and the outputs applied in index order give
   exactly the serial state of the block.
   */
  lemma SerialEquivalence(cf: Config, run: seq<System>)
    requires IsRun(cf, run) && Last(run).sh.done
    ensures Settled(cf, Last(run).sh)
    ensures forall i: nat | i < |cf.block| ::
              Outputs(Last(run).sh)[i] == RunAlone(cf.block[i], SerialState(cf.block[..i]), [])
    ensures Replay(Outputs(Last(run).sh)) == SerialState(cf.block)
  {
    var s := Last(run);
    RunSafe(cf, run, |run| - 1);
    var at, hist :| Inv(cf, s, at, hist);
    QuietSerial(cf, s, at, hist);
  }
}
