/**
 Nothing is left behind: a transaction that is ready below the execution index
 has a thread that will fetch it, and a parked transaction waits on one that
 has not been executed yet or whose finisher has still to take the list.
 */
module Progress {
  import opened State
  import opened Protocol
  import opened Ownership

  /** This thread will try to execute `i` or lower the execution index to at most `i`. */
  predicate Fetches(pc: Pc, i: nat) {
    match pc
    case Claim(ExecStatus(at)) => at == i
    case Redo(j, _) => j == i
    case Fin(_, _, _, Wake(_, low)) => low.Some? && low.value <= i
    case Fin(_, _, _, LowerExec(target)) => target <= i
    case _ => false
  }

  ghost predicate Fetched(s: System, i: nat) {
    exists u: nat :: u < |s.threads| && Fetches(s.threads[u], i)
  }

  ghost predicate AllFetched(n: nat, s: System)
    requires WellSized(n, s.sh)
  {
    forall i: nat | i < n && s.sh.status[i].ReadyToExecute? && i < s.sh.exec :: Fetched(s, i)
  }

  predicate Waits(a: Shared, pc: Pc, i: nat)
    requires i < |a.status|
  {
    a.status[i].ReadyToExecute? && i < a.exec && !Fetches(pc, i)
  }

  lemma WaitsClaiming(cf: Config, a: Shared, p: ClaimPc, b: Shared, pc': Pc, i: nat)
    requires WellSized(|cf.block|, a) && WellSized(|cf.block|, b) && i < |cf.block|
    requires Claiming(cf, a, p, b, pc') && Waits(b, pc', i)
    ensures Waits(a, Claim(p), i)
  {
  }

  lemma WaitsFinishing(cf: Config, a: Shared, j: nat, c: nat, outside: bool, p: FinishPc, b: Shared, pc': Pc, i: nat)
    requires WellSized(|cf.block|, a) && WellSized(|cf.block|, b) && i < |cf.block|
    requires InRange(|cf.block|, Fin(j, c, outside, p))
    requires Finishing(cf, a, j, c, outside, p, b, pc') && pc' != Panic && Waits(b, pc', i)
    ensures Waits(a, Fin(j, c, outside, p), i)
  {
  }

  lemma WaitsRest(cf: Config, a: Shared, pc: Pc, b: Shared, pc': Pc, i: nat)
    requires WellSized(|cf.block|, a) && WellSized(|cf.block|, b) && i < |cf.block| && InRange(|cf.block|, pc)
    requires pc.Run? || pc.Val? || pc.Abort? || pc.Redo?
    requires Move(cf, a, pc, b, pc') && pc' != Panic && Waits(b, pc', i)
    ensures Waits(a, pc, i)
  {
    match pc
    case Run(j, c, p) => WaitsRunning(cf, a, j, c, p, b, pc', i);
    case Val(j, c, p) =>
    case Abort(j, c, p) =>
    case Redo(j, p) =>
  }

  lemma WaitsRunning(cf: Config, a: Shared, j: nat, c: nat, p: RunPc, b: Shared, pc': Pc, i: nat)
    requires WellSized(|cf.block|, a) && WellSized(|cf.block|, b) && i < |cf.block| && InRange(|cf.block|, Run(j, c, p))
    requires Running(cf, a, j, c, p, b, pc') && pc' != Panic && Waits(b, pc', i)
    ensures Waits(a, Run(j, c, p), i)
  {
    RunningCounters(cf, a, j, c, p, b, pc');
  }

  lemma WaitsMove(cf: Config, a: Shared, pc: Pc, b: Shared, pc': Pc, i: nat)
    requires WellSized(|cf.block|, a) && WellSized(|cf.block|, b) && i < |cf.block| && InRange(|cf.block|, pc)
    requires Move(cf, a, pc, b, pc') && pc' != Panic && Waits(b, pc', i)
    ensures Waits(a, pc, i)
  {
    match pc
    case Sched(p) => PlainMove(cf, a, pc, b, pc');
    case Check(k, p) => PlainMove(cf, a, pc, b, pc');
    case Claim(p) => WaitsClaiming(cf, a, p, b, pc', i);
    case Fin(j, c, outside, p) => WaitsFinishing(cf, a, j, c, outside, p, b, pc', i);
    case _ => WaitsRest(cf, a, pc, b, pc', i);
  }

  lemma AllFetchedStep(cf: Config, s: System, t: nat, s': System)
    requires WellSized(|cf.block|, s.sh) && AllFetched(|cf.block|, s)
    requires Step(cf, s, t, s') && s'.threads[t] != Panic && WellSized(|cf.block|, s'.sh)
    requires InRange(|cf.block|, s.threads[t])
    ensures AllFetched(|cf.block|, s')
  {
    forall i: nat | i < |cf.block| && s'.sh.status[i].ReadyToExecute? && i < s'.sh.exec ensures Fetched(s', i) {
      if !Fetches(s'.threads[t], i) {
        WaitsMove(cf, s.sh, s.threads[t], s'.sh, s'.threads[t], i);
        assert Fetched(s, i);
        var u: nat :| u < |s.threads| && Fetches(s.threads[u], i);
        assert Fetches(s'.threads[u], i);
      }
    }
  }

  // --- No wake-up is lost ---

  /** This thread will take the dependency list of `d`. */
  predicate TakerOf(pc: Pc, d: nat) {
    pc.Fin? && pc.i == d && pc.fp.Take?
  }

  ghost predicate Taker(s: System, d: nat) {
    exists u: nat :: u < |s.threads| && TakerOf(s.threads[u], d)
  }

  /** The list of `d` is not empty or about to get an entry. */
  ghost predicate Awaited(s: System, d: nat)
    requires d < |s.sh.deps|
  {
    s.sh.deps[d] != [] || Locked(s.threads, d)
  }

  ghost predicate NoneLost(n: nat, s: System)
    requires WellSized(n, s.sh)
  {
    forall d: nat | d < n && s.sh.status[d].Executed? && Awaited(s, d) :: Taker(s, d)
  }

  /** A step after which an executed `d` is newly awaited does not exist. */
  lemma AwaitedFinishing(
      cf: Config, a: Shared, i: nat, c: nat, outside: bool, p: FinishPc, b: Shared, pc': Pc, d: nat)
    requires WellSized(|cf.block|, a) && WellSized(|cf.block|, b) && d < |cf.block|
    requires InRange(|cf.block|, Fin(i, c, outside, p)) && Finishing(cf, a, i, c, outside, p, b, pc') && pc' != Panic
    requires b.status[d].Executed? && !TakerOf(pc', d)
    ensures a.status[d].Executed? && (b.deps[d] != [] ==> a.deps[d] != []) && !Locks(pc', d)
    ensures TakerOf(Fin(i, c, outside, p), d) ==> b.deps[d] == [] && Wants(Fin(i, c, outside, p)) == Some(d)
  {
  }

  lemma AwaitedMove(cf: Config, a: Shared, pc: Pc, b: Shared, pc': Pc, d: nat)
    requires WellSized(|cf.block|, a) && WellSized(|cf.block|, b) && d < |cf.block| && InRange(|cf.block|, pc)
    requires Move(cf, a, pc, b, pc') && pc' != Panic && b.status[d].Executed? && !TakerOf(pc', d)
    ensures a.status[d].Executed?
    ensures b.deps[d] != [] ==> a.deps[d] != [] || Locks(pc, d)
    ensures Locks(pc', d) ==> Locks(pc, d)
    ensures TakerOf(pc, d) ==> b.deps[d] == [] && Wants(pc) == Some(d)
  {
    match pc
    case Run(i, c, p) => AwaitedRunning(cf, a, i, c, p, b, pc', d);
    case Fin(i, c, outside, p) => AwaitedFinishing(cf, a, i, c, outside, p, b, pc', d);
    case Val(i, c, p) =>
    case Abort(i, c, p) => assert b.deps == a.deps;
    case Redo(i, p) =>
    case Claim(p) =>
    case _ => PlainMove(cf, a, pc, b, pc');
  }

  lemma AwaitedRunning(cf: Config, a: Shared, i: nat, c: nat, p: RunPc, b: Shared, pc': Pc, d: nat)
    requires WellSized(|cf.block|, a) && WellSized(|cf.block|, b) && d < |cf.block| && InRange(|cf.block|, Run(i, c, p))
    requires Running(cf, a, i, c, p, b, pc') && pc' != Panic && b.status[d].Executed? && !TakerOf(pc', d)
    ensures a.status[d].Executed?
    ensures b.deps[d] != [] ==> a.deps[d] != [] || Locks(Run(i, c, p), d)
    ensures !Locks(pc', d)
  {
    if p.Apply? { assert b.status == a.status && b.deps == a.deps; }
  }

  lemma NoneLostStep(cf: Config, s: System, t: nat, s': System)
    requires WellSized(|cf.block|, s.sh) && NoneLost(|cf.block|, s)
    requires Step(cf, s, t, s') && s'.threads[t] != Panic && WellSized(|cf.block|, s'.sh)
    requires InRange(|cf.block|, s.threads[t])
    ensures NoneLost(|cf.block|, s')
  {
    forall d: nat | d < |cf.block| && s'.sh.status[d].Executed? && Awaited(s', d) ensures Taker(s', d) {
      if !TakerOf(s'.threads[t], d) {
        AwaitedMove(cf, s.sh, s.threads[t], s'.sh, s'.threads[t], d);
        AwaitedBefore(s, t, s', d);
        assert Taker(s, d);
        var u: nat :| u < |s.threads| && TakerOf(s.threads[u], d);
        assert u != t;
        assert TakerOf(s'.threads[u], d);
      }
    }
  }

  lemma AwaitedBefore(s: System, t: nat, s': System, d: nat)
    requires Replaces(s, t, s') && d < |s.sh.deps| == |s'.sh.deps| && Awaited(s', d)
    requires s'.sh.deps[d] != [] ==> s.sh.deps[d] != [] || Locks(s.threads[t], d)
    requires Locks(s'.threads[t], d) ==> Locks(s.threads[t], d)
    requires TakerOf(s.threads[t], d) ==> s'.sh.deps[d] == [] && !Locked(s.threads, d)
    ensures Awaited(s, d) && !TakerOf(s.threads[t], d)
  {
    if Locked(s'.threads, d) {
      var u: nat :| u < |s'.threads| && Locks(s'.threads[u], d);
      assert Locks(s.threads[u], d);
    } else if Locks(s.threads[t], d) {
      assert Locked(s.threads, d);
    }
  }
}
