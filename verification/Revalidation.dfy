/**
 When the indices of the scheduler move back, and to where: what the flag means
 with which an execution asks for revalidation, and what lowers an index.
 */
module Revalidation {
  import opened State
  import opened Protocol
  import opened Ownership
  import opened Runs

  /** While it writes, an execution keeps track of keys its predecessor did not write. */
  ghost predicate FlagExact(a: Shared, pc: Pc) {
    match pc
    case Run(i, _, Apply(_, w, left, prev, outside)) =>
      && i < |a.outs| && left <= w.Keys
      && (left != {} ==> prev == OutKeys(a.outs[i]) - (w.Keys - left))
      && (outside <==> !(w.Keys - left <= OutKeys(a.outs[i])))
    case Run(i, _, RecordIn(_, w, outside)) => i < |a.outs| && (outside <==> !(w.Keys <= OutKeys(a.outs[i])))
    case Run(i, _, RecordOut(w, outside)) => i < |a.outs| && (outside <==> !(w.Keys <= OutKeys(a.outs[i])))
    case _ => true
  }

  lemma FlagWrite(a: Shared, i: nat, c: nat, p: RunPc, b: Shared, pc': Pc, k: StateKey)
    requires p.Apply? && i < |a.mv| && k in p.left && FlagExact(a, Run(i, c, p)) && WriteOne(a, i, c, p, b, pc', k)
    ensures b.outs == a.outs && FlagExact(b, pc')
  {
    if pc' != Panic {
      var left' := p.left - {k};
      assert p.w.Keys - left' == p.w.Keys - p.left + {k};
      assert k in p.prev <==> k in OutKeys(a.outs[i]);
    }
  }

  lemma FlagApply(cf: Config, a: Shared, i: nat, c: nat, p: RunPc, b: Shared, pc': Pc)
    requires WellSized(|cf.block|, a) && i < |cf.block| && p.Apply? && Running(cf, a, i, c, p, b, pc')
    requires FlagExact(a, Run(i, c, p))
    ensures b.outs == a.outs && FlagExact(b, pc')
  {
    if p.left != {} {
      var k :| k in p.left && WriteOne(a, i, c, p, b, pc', k);
      FlagWrite(a, i, c, p, b, pc', k);
    } else if p.prev != {} {
      var k :| k in p.prev && DeleteOne(a, i, c, p, b, pc', k);
    } else {
      assert p.w.Keys - p.left == p.w.Keys;
    }
  }

  lemma FlagRunning(cf: Config, a: Shared, i: nat, c: nat, p: RunPc, b: Shared, pc': Pc)
    requires WellSized(|cf.block|, a) && InRange(|cf.block|, Run(i, c, p)) && Running(cf, a, i, c, p, b, pc')
    requires FlagExact(a, Run(i, c, p))
    ensures |b.outs| == |a.outs| && FlagExact(b, pc')
    ensures forall j: nat | j < |a.outs| && j != i :: b.outs[j] == a.outs[j]
  {
    if p.Apply? { FlagApply(cf, a, i, c, p, b, pc'); }
  }

  /** Nobody but its executor changes the recorded output of a transaction. */
  lemma FlagElse(cf: Config, a: Shared, pc: Pc, b: Shared, pc': Pc)
    requires WellSized(|cf.block|, a) && InRange(|cf.block|, pc) && Move(cf, a, pc, b, pc') && !pc.Run?
    ensures b.outs == a.outs && FlagExact(b, pc')
  {
    match pc
    case Sched(_) => PlainMove(cf, a, pc, b, pc');
    case Check(_, _) => PlainMove(cf, a, pc, b, pc');
    case Claim(_) =>
    case Fin(_, _, _, _) =>
    case Val(_, _, _) =>
    case Abort(_, _, _) =>
    case Redo(_, _) =>
  }

  lemma FlagMove(cf: Config, a: Shared, pc: Pc, b: Shared, pc': Pc)
    requires WellSized(|cf.block|, a) && InRange(|cf.block|, pc) && Move(cf, a, pc, b, pc') && FlagExact(a, pc)
    ensures |b.outs| == |a.outs| && FlagExact(b, pc')
    ensures forall j: nat | j < |a.outs| && (pc.Run? ==> j != pc.i) :: b.outs[j] == a.outs[j]
  {
    if pc.Run? {
      FlagRunning(cf, a, pc.i, pc.c, pc.rp, b, pc');
    } else {
      FlagElse(cf, a, pc, b, pc');
    }
  }

  ghost predicate FlagsExact(s: System) {
    forall u: nat | u < |s.threads| :: FlagExact(s.sh, s.threads[u])
  }

  lemma FlagsNext(cf: Config, run: seq<System>, q: nat)
    requires IsRun(cf, run) && q + 1 < |run| && FlagsExact(run[q])
    ensures FlagsExact(run[q + 1])
  {
    var s, s' := run[q], run[q + 1];
    var t, at, hist := StepAt(cf, run, q);
    assert FlagExact(s.sh, s.threads[t]);
    FlagMove(cf, s.sh, s.threads[t], s'.sh, s'.threads[t]);
    forall u: nat | u < |s'.threads| ensures FlagExact(s'.sh, s'.threads[u]) {
      if u != t {
        assert FlagExact(s.sh, s.threads[u]);
        OtherExecutes(cf, s, at, t, u);
      }
    }
  }

  /** Two workers do not execute the same transaction. */
  lemma OtherExecutes(cf: Config, s: System, at: seq<Place>, t: nat, u: nat)
    requires Owned(|cf.block|, s, at) && t < |s.threads| && u < |s.threads| && t != u
    ensures s.threads[t].Run? && s.threads[u].Run? ==> s.threads[t].i != s.threads[u].i
  {
    assert ThreadOwns(s.sh, s.threads[t], at, t) && ThreadOwns(s.sh, s.threads[u], at, u);
  }

  lemma {:induction false} FlagsAlways(cf: Config, run: seq<System>, q: nat)
    requires IsRun(cf, run) && q < |run|
    ensures FlagsExact(run[q])
  {
    if q == 0 {
    } else {
      FlagsAlways(cf, run, q - 1);
      FlagsNext(cf, run, q - 1);
    }
  }

  /**
   In every run: when an execution comes to record its output, it asks for
   revalidation of what follows exactly if it wrote a key that the output
   recorded before it does not have.
   */
  lemma RevalidatesIff(cf: Config, run: seq<System>, q: nat, u: nat)
    requires IsRun(cf, run) && q < |run| && u < |run[q].threads|
    requires run[q].threads[u].Run? && run[q].threads[u].rp.RecordOut?
    ensures var Run(i, _, p) := run[q].threads[u];
            i < |run[q].sh.outs| && (p.outside <==> exists k :: k in p.w && k !in OutKeys(run[q].sh.outs[i]))
  {
    FlagsAlways(cf, run, q);
    assert FlagExact(run[q].sh, run[q].threads[u]);
  }

  // --- What lowers an index ---

  /** A worker whose step takes the validation index down to `v`. */
  predicate LowersVal(pc: Pc, v: nat) {
    || (pc.Fin? && pc.fp.LowerVal? && pc.outside && pc.i == v)
    || (pc.Redo? && pc.xp.LowerSuffix? && pc.i + 1 == v)
  }

  predicate LowersExec(pc: Pc, e: nat) {
    pc.Fin? && pc.fp.LowerExec? && pc.fp.target == e
  }

  lemma IndicesMove(cf: Config, a: Shared, pc: Pc, b: Shared, pc': Pc)
    requires WellSized(|cf.block|, a) && InRange(|cf.block|, pc) && Move(cf, a, pc, b, pc')
    requires pc.Fin? && pc.fp.LowerVal? ==> pc.outside
    ensures b.val < a.val ==> LowersVal(pc, b.val)
    ensures b.exec < a.exec ==> LowersExec(pc, b.exec)
    ensures pc'.Fin? && pc'.fp.LowerVal? ==> pc'.outside
    ensures forall x: nat | LowersVal(pc, x) :: b.val <= x
    ensures forall x: nat | LowersExec(pc, x) :: b.exec <= x
  {
    match pc
    case Run(i, c, p) => RunningCounters(cf, a, i, c, p, b, pc');
    case Abort(i, c, p) => AbortedCounters(cf, a, i, c, p, b, pc');
    case Fin(i, c, outside, p) => IndicesFinishing(cf, a, i, c, outside, p, b, pc');
    case _ =>
  }

  lemma IndicesFinishing(cf: Config, a: Shared, i: nat, c: nat, outside: bool, p: FinishPc, b: Shared, pc': Pc)
    requires WellSized(|cf.block|, a) && InRange(|cf.block|, Fin(i, c, outside, p))
    requires Finishing(cf, a, i, c, outside, p, b, pc') && (p.LowerVal? ==> outside)
    ensures b.val < a.val ==> LowersVal(Fin(i, c, outside, p), b.val)
    ensures b.exec < a.exec ==> LowersExec(Fin(i, c, outside, p), b.exec)
    ensures pc'.Fin? && pc'.fp.LowerVal? ==> pc'.outside
    ensures p.LowerVal? ==> b.val <= i
    ensures p.LowerExec? ==> b.exec <= p.target
  {
  }

  ghost predicate LowerersFlagged(s: System) {
    forall u: nat | u < |s.threads| && s.threads[u].Fin? && s.threads[u].fp.LowerVal? :: s.threads[u].outside
  }

  lemma {:induction false} LowerersAlways(cf: Config, run: seq<System>, q: nat)
    requires IsRun(cf, run) && q < |run|
    ensures LowerersFlagged(run[q])
  {
    if q == 0 {
    } else {
      LowerersAlways(cf, run, q - 1);
      LowerersNext(cf, run, q - 1);
    }
  }

  lemma LowerersNext(cf: Config, run: seq<System>, q: nat)
    requires IsRun(cf, run) && q + 1 < |run| && LowerersFlagged(run[q])
    ensures LowerersFlagged(run[q + 1])
  {
    var t, at, hist := StepAt(cf, run, q);
    IndicesMove(cf, run[q].sh, run[q].threads[t], run[q + 1].sh, run[q + 1].threads[t]);
  }

  /**
   In every run the validation index is lowered only by an execution that asked
   for revalidation, to its own index, and by an abort, to the index after it;
   the execution index only by a worker that has woken transactions, to the
   smallest it noted.
   */
  lemma IndexLowered(cf: Config, run: seq<System>, q: nat)
    requires IsRun(cf, run) && q + 1 < |run|
    ensures run[q + 1].sh.val < run[q].sh.val ==>
              exists u: nat :: u < |run[q].threads| && LowersVal(run[q].threads[u], run[q + 1].sh.val)
    ensures run[q + 1].sh.exec < run[q].sh.exec ==>
              exists u: nat :: u < |run[q].threads| && LowersExec(run[q].threads[u], run[q + 1].sh.exec)
  {
    var t, at, hist := StepAt(cf, run, q);
    LowerersAlways(cf, run, q);
    IndicesMove(cf, run[q].sh, run[q].threads[t], run[q + 1].sh, run[q + 1].threads[t]);
  }
}
