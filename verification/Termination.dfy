/**
 The task counter and the double collect of check_done: when the done marker is
 set, both indices were at or past the block size and no task was active at the
 moment the counter was read, and nothing has changed since.
 */
module Termination {
  import opened Protocol
  import opened Ownership

  // --- The counter of active tasks ---

  /** The thread holds a task guard. */
  predicate Holds(pc: Pc) {
    !pc.Sched? && !pc.Check?
  }

  ghost function Those(threads: seq<Pc>, f: Pc -> bool): set<nat> {
    set u: nat | u < |threads| && f(threads[u])
  }

  lemma ThoseReplace(threads: seq<Pc>, t: nat, pc': Pc, f: Pc -> bool)
    requires t < |threads|
    ensures |Those(threads[t := pc'], f)| ==
            |Those(threads, f)| + (if f(pc') then 1 else 0) - (if f(threads[t]) then 1 else 0)
    ensures f(threads[t]) ==> |Those(threads, f)| > 0
  {
    var rest := Those(threads, f) - {t};
    assert Those(threads, f) == if f(threads[t]) then rest + {t} else rest;
    assert Those(threads[t := pc'], f) == if f(pc') then rest + {t} else rest;
  }

  /** There are no more such threads than threads. */
  lemma {:induction false} ThoseBounded(threads: seq<Pc>, f: Pc -> bool)
    ensures |Those(threads, f)| <= |threads|
  {
    if threads == [] {
      assert Those(threads, f) == {};
    } else {
      var m := |threads| - 1;
      ThoseBounded(threads[..m], f);
      assert Those(threads, f) == Those(threads[..m], f) + (if f(threads[m]) then {m} else {});
    }
  }

  /** The counter is the number of threads that hold a guard. */
  ghost predicate Counted(s: System) {
    s.sh.active == |Those(s.threads, Holds)|
  }

  lemma CountMove(cf: Config, a: Shared, pc: Pc, b: Shared, pc': Pc)
    requires WellSized(|cf.block|, a) && InRange(|cf.block|, pc) && Move(cf, a, pc, b, pc') && pc' != Panic
    ensures b.active == a.active + (if Holds(pc') then 1 else 0) - (if Holds(pc) then 1 else 0)
  {
    match pc
    case Sched(p) =>
    case Check(k, p) =>
    case Claim(p) =>
    case Run(i, c, p) => RunningCounters(cf, a, i, c, p, b, pc');
    case Fin(i, c, outside, p) =>
    case Val(i, c, p) =>
    case Abort(i, c, p) => AbortedCounters(cf, a, i, c, p, b, pc');
    case Redo(i, p) =>
  }

  lemma CountedStep(cf: Config, s: System, t: nat, s': System)
    requires WellSized(|cf.block|, s.sh) && Counted(s) && Step(cf, s, t, s') && InRange(|cf.block|, s.threads[t])
    requires s'.threads[t] != Panic
    ensures Counted(s')
  {
    ThoseReplace(s.threads, t, s'.threads[t], Holds);
    CountMove(cf, s.sh, s.threads[t], s'.sh, s'.threads[t]);
  }

  // --- The double collect ---

  /** The thread has lowered an index and not yet counted that. */
  predicate Pending(pc: Pc) {
    (pc.Fin? && (pc.fp.BumpExec? || pc.fp.BumpVal?)) || (pc.Redo? && pc.xp.BumpSuffix?)
  }

  ghost predicate NonePending(threads: seq<Pc>) {
    forall u: nat | u < |threads| :: !Pending(threads[u])
  }

  /** The thread has no task, and the index it may have claimed is past the block. */
  predicate Resting(n: nat, pc: Pc) {
    || pc.Sched? || pc.Check?
    || (pc.Claim? && (pc.cp.ValStatus? || pc.cp.ExecStatus? ==> pc.cp.at >= n))
  }

  /** Both indices are past the block and no thread has a task. */
  ghost predicate Quiet(n: nat, s: System) {
    && s.sh.val >= n && s.sh.exec >= n
    && forall u: nat | u < |s.threads| :: Resting(n, s.threads[u])
  }

  /** What each load of check_done has established, whatever ran in between. */
  ghost predicate Collects(n: nat, s: System, p: DonePc) {
    match p
    case ReadCnt => true
    case ReadVal(seen) => seen <= s.sh.cnt
    case ReadExec(seen, v) =>
      && seen <= s.sh.cnt
      && (seen == s.sh.cnt && NonePending(s.threads) && v >= n ==> s.sh.val >= n)
    case ReadTasks(seen, v, e) =>
      && seen <= s.sh.cnt
      && (seen == s.sh.cnt && NonePending(s.threads) ==> (v >= n ==> s.sh.val >= n) && (e >= n ==> s.sh.exec >= n))
    case ReadCntAgain(seen) => seen <= s.sh.cnt && (seen == s.sh.cnt ==> Quiet(n, s))
    case SetDone => Quiet(n, s)
  }

  ghost predicate Collected(n: nat, s: System) {
    && (s.sh.done ==> Quiet(n, s))
    && (forall u: nat | u < |s.threads| && s.threads[u].Check? :: Collects(n, s, s.threads[u].dp))
  }

  /** An index goes down only while the thread becomes pending; pending ends with a count. */
  lemma LowerMove(cf: Config, a: Shared, pc: Pc, b: Shared, pc': Pc)
    requires WellSized(|cf.block|, a) && InRange(|cf.block|, pc) && Move(cf, a, pc, b, pc')
    ensures b.cnt >= a.cnt
    ensures b.cnt == a.cnt && !Pending(pc') ==> !Pending(pc) && b.val >= a.val && b.exec >= a.exec
  {
    match pc
    case Sched(p) =>
    case Check(k, p) =>
    case Claim(p) =>
    case Run(i, c, p) => RunningCounters(cf, a, i, c, p, b, pc');
    case Fin(i, c, outside, p) =>
    case Val(i, c, p) =>
    case Abort(i, c, p) => AbortedCounters(cf, a, i, c, p, b, pc');
    case Redo(i, p) =>
  }

  /** A resting thread stays resting and leaves every transaction alone. */
  lemma RestingMove(cf: Config, a: Shared, pc: Pc, b: Shared, pc': Pc)
    requires WellSized(|cf.block|, a) && Move(cf, a, pc, b, pc')
    requires a.val >= |cf.block| && a.exec >= |cf.block| && Resting(|cf.block|, pc)
    ensures Resting(|cf.block|, pc') && b.val >= a.val && b.exec >= a.exec && b.cnt == a.cnt
    ensures b.status == a.status && b.deps == a.deps && b.mv == a.mv && b.ins == a.ins && b.outs == a.outs
  {
    match pc
    case Sched(p) =>
    case Check(k, p) =>
    case Claim(p) =>
  }

  lemma QuietStep(cf: Config, s: System, t: nat, s': System)
    requires WellSized(|cf.block|, s.sh) && Quiet(|cf.block|, s) && Step(cf, s, t, s')
    ensures Quiet(|cf.block|, s')
    ensures s'.sh.status == s.sh.status && s'.sh.mv == s.sh.mv && s'.sh.outs == s.sh.outs && s'.sh.ins == s.sh.ins
    ensures s'.sh.deps == s.sh.deps
  {
    RestingMove(cf, s.sh, s.threads[t], s'.sh, s'.threads[t]);
  }

  lemma NonePendingBefore(s: System, t: nat, s': System)
    requires Replaces(s, t, s') && NonePending(s'.threads) && !Pending(s.threads[t])
    ensures NonePending(s.threads)
  {
    forall u: nat | u < |s.threads| ensures !Pending(s.threads[u]) {
      assert !Pending(s'.threads[u]);
    }
  }

  lemma CollectsOther(cf: Config, s: System, t: nat, s': System, p: DonePc)
    requires WellSized(|cf.block|, s.sh) && Step(cf, s, t, s') && InRange(|cf.block|, s.threads[t])
    requires Collects(|cf.block|, s, p)
    ensures Collects(|cf.block|, s', p)
  {
    LowerMove(cf, s.sh, s.threads[t], s'.sh, s'.threads[t]);
    if s'.sh.cnt == s.sh.cnt && NonePending(s'.threads) { NonePendingBefore(s, t, s'); }
    if Quiet(|cf.block|, s) { QuietStep(cf, s, t, s'); }
  }

  lemma CollectsOwn(cf: Config, s: System, t: nat, s': System)
    requires WellSized(|cf.block|, s.sh) && Counted(s) && Step(cf, s, t, s')
    requires s.threads[t].Check? && Collects(|cf.block|, s, s.threads[t].dp)
    ensures s'.threads[t].Check? ==> Collects(|cf.block|, s', s'.threads[t].dp)
    ensures s'.sh.done && !s.sh.done ==> Quiet(|cf.block|, s')
  {
    if s.threads[t].dp.ReadTasks? && s.sh.active == 0 {
      assert Those(s.threads, Holds) == {};
      forall u: nat | u < |s.threads| ensures !Holds(s.threads[u]) {
        assert u !in Those(s.threads, Holds);
      }
      assert NonePending(s.threads);
    }
    if NonePending(s'.threads) { NonePendingBefore(s, t, s'); }
    if s.threads[t].dp.SetDone? { QuietStep(cf, s, t, s'); }
  }

  /** The double collect stays sound at every step. */
  lemma CollectedStep(cf: Config, s: System, t: nat, s': System)
    requires WellSized(|cf.block|, s.sh) && Counted(s) && Collected(|cf.block|, s)
    requires Step(cf, s, t, s') && InRange(|cf.block|, s.threads[t])
    ensures Collected(|cf.block|, s')
  {
    if s.sh.done {
      QuietStep(cf, s, t, s');
    }
    if s.threads[t].Check? { CollectsOwn(cf, s, t, s'); }
    forall u: nat | u < |s'.threads| && s'.threads[u].Check? ensures Collects(|cf.block|, s', s'.threads[u].dp) {
      if u != t { CollectsOther(cf, s, t, s', s.threads[u].dp); }
      else if !s.threads[t].Check? { FreshCheck(cf, s.sh, s.threads[t], s'.sh, s'.threads[t]); }
    }
    if s'.sh.done && !s.sh.done { FreshDone(cf, s.sh, s.threads[t], s'.sh, s'.threads[t]); }
  }

  lemma FreshCheck(cf: Config, a: Shared, pc: Pc, b: Shared, pc': Pc)
    requires WellSized(|cf.block|, a) && InRange(|cf.block|, pc) && Move(cf, a, pc, b, pc')
    requires !pc.Check? && pc'.Check?
    ensures pc'.dp == ReadCnt
  {
    match pc
    case Sched(p) =>
    case Claim(p) =>
    case Run(i, c, p) => RunningCounters(cf, a, i, c, p, b, pc');
    case Fin(i, c, outside, p) =>
    case Val(i, c, p) =>
    case Abort(i, c, p) => AbortedCounters(cf, a, i, c, p, b, pc');
    case Redo(i, p) =>
  }

  lemma FreshDone(cf: Config, a: Shared, pc: Pc, b: Shared, pc': Pc)
    requires WellSized(|cf.block|, a) && InRange(|cf.block|, pc) && Move(cf, a, pc, b, pc')
    requires !a.done && b.done
    ensures pc.Check? && pc.dp.SetDone?
  {
    match pc
    case Sched(p) =>
    case Check(k, p) =>
    case Claim(p) =>
    case Run(i, c, p) => RunningCounters(cf, a, i, c, p, b, pc');
    case Fin(i, c, outside, p) =>
    case Val(i, c, p) =>
    case Abort(i, c, p) => AbortedCounters(cf, a, i, c, p, b, pc');
    case Redo(i, p) =>
  }
}
