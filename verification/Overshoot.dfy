/**
 How far the indices can run past the block: the check against the block size
 and the fetch_add are separate steps, so every thread may add one.
 */
module Overshoot {
  import opened Protocol
  import opened Ownership
  import opened Termination
  import opened Runs

  /** The thread has seen an execution index inside the block and will increment it. */
  predicate WillFetchExec(pc: Pc) {
    (pc.Sched? && pc.sp.ExecGuard?) || (pc.Claim? && pc.cp.ExecFetch?)
  }

  predicate WillFetchVal(pc: Pc) {
    (pc.Sched? && pc.sp.ValGuard?) || (pc.Claim? && pc.cp.ValFetch?)
  }

  /** Each index plus the increments still to come stays within one per thread of the last transaction. */
  ghost predicate Bounded(n: nat, s: System) {
    && s.sh.exec + |Those(s.threads, WillFetchExec)| <= n - 1 + |s.threads|
    && s.sh.val + |Those(s.threads, WillFetchVal)| <= n - 1 + |s.threads|
  }

  function One(b: bool): nat { if b then 1 else 0 }

  /** A move adds to the index only what it had announced, and announces only below the block size. */
  lemma BoundedExec(cf: Config, a: Shared, pc: Pc, b: Shared, pc': Pc)
    requires WellSized(|cf.block|, a) && InRange(|cf.block|, pc) && Move(cf, a, pc, b, pc')
    ensures b.exec + One(WillFetchExec(pc')) <= a.exec + One(WillFetchExec(pc)) || b.exec < |cf.block|
  {
    match pc
    case Sched(p) =>
    case Check(k, p) =>
    case Claim(p) =>
    case Run(i, c, p) => RunningCounters(cf, a, i, c, p, b, pc');
    case Fin(i, c, outside, p) =>
    case Val(i, c, p) =>
    case Abort(i, c, p) => AbortedCounters(cf, a, i, c, p, b, pc');
    case Redo(i, p) =>
  }

  lemma BoundedVal(cf: Config, a: Shared, pc: Pc, b: Shared, pc': Pc)
    requires WellSized(|cf.block|, a) && InRange(|cf.block|, pc) && Move(cf, a, pc, b, pc')
    ensures b.val + One(WillFetchVal(pc')) <= a.val + One(WillFetchVal(pc)) || b.val < |cf.block|
  {
    match pc
    case Sched(p) =>
    case Check(k, p) =>
    case Claim(p) =>
    case Run(i, c, p) => RunningCounters(cf, a, i, c, p, b, pc');
    case Fin(i, c, outside, p) =>
    case Val(i, c, p) =>
    case Abort(i, c, p) => AbortedCounters(cf, a, i, c, p, b, pc');
    case Redo(i, p) =>
  }

  lemma BoundedStep(cf: Config, s: System, t: nat, s': System)
    requires WellSized(|cf.block|, s.sh) && Step(cf, s, t, s') && InRange(|cf.block|, s.threads[t])
    requires Bounded(|cf.block|, s)
    ensures Bounded(|cf.block|, s')
  {
    BoundedExec(cf, s.sh, s.threads[t], s'.sh, s'.threads[t]);
    BoundedVal(cf, s.sh, s.threads[t], s'.sh, s'.threads[t]);
    ThoseReplace(s.threads, t, s'.threads[t], WillFetchExec);
    ThoseReplace(s.threads, t, s'.threads[t], WillFetchVal);
    ThoseBounded(s'.threads, WillFetchExec);
    ThoseBounded(s'.threads, WillFetchVal);
  }

  lemma BoundedNext(cf: Config, run: seq<System>, q: nat)
    requires IsRun(cf, run) && q + 1 < |run| && Bounded(|cf.block|, run[q])
    ensures Bounded(|cf.block|, run[q + 1]) && |run[q + 1].threads| == |run[q].threads|
  {
    var t, at, hist := StepAt(cf, run, q);
    BoundedStep(cf, run[q], t, run[q + 1]);
  }

  /** With T threads and n transactions neither index ever exceeds n + T - 1. */
  lemma {:induction false} OvershootBound(cf: Config, run: seq<System>, q: nat)
    requires IsRun(cf, run) && |cf.block| + cf.workers > 0 && q < |run|
    ensures run[q].sh.exec <= |cf.block| + cf.workers - 1 && run[q].sh.val <= |cf.block| + cf.workers - 1
    ensures |run[q].threads| == cf.workers && Bounded(|cf.block|, run[q])
    decreases q
  {
    if q == 0 {
      assert Those(run[0].threads, WillFetchExec) == {} && Those(run[0].threads, WillFetchVal) == {};
    } else {
      OvershootBound(cf, run, q - 1);
      BoundedNext(cf, run, q - 1);
    }
  }
}
