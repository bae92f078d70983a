/**
 Throttling is transparent: with any window and any plan from build_domain_plan
 an execution task is handed out only where it would be without throttling.
 */
module Throttling {
  import opened State
  import opened Protocol
  import opened Runs
  import opened Stablecoin
  import opened DomainPlan

  /** The scheduler uses the plan built for this block. */
  ghost predicate UsesPlan(cf: Config, txs: seq<StablecoinTx>, lMax: nat, plan: Plan) {
    && |txs| == |cf.block| && Planned(txs, lMax, plan)
    && cf.bounds == SegmentBounds(plan)
    && |cf.segmentOf| == |cf.block|
    && forall i: nat | i < |cf.block| :: cf.segmentOf[i] == SegmentOf(plan.segments, i)
  }

  lemma FindSegmentIs(cf: Config, txs: seq<StablecoinTx>, lMax: nat, plan: Plan, i: nat)
    requires UsesPlan(cf, txs, lMax, plan)
    ensures FindSegment(cf, i) == SegmentOf(plan.segments, i)
  {
    SegmentOfMonotone(plan.segments, |txs|, i, i);
  }

  /** A boundary only ever holds back execution that is ahead of validation. */
  lemma BoundaryAhead(cf: Config, txs: seq<StablecoinTx>, lMax: nat, plan: Plan, v: nat, e: nat)
    requires UsesPlan(cf, txs, lMax, plan) && AtBoundary(cf, v, e)
    ensures v < e
  {
    FindSegmentIs(cf, txs, lMax, plan, v);
    FindSegmentIs(cf, txs, lMax, plan, e);
    if e <= v { SegmentOfMonotone(plan.segments, |txs|, e, v); }
  }

  /** next_task turns to execution exactly when it would without throttling. */
  lemma ChooseAsUnthrottled(cf: Config, txs: seq<StablecoinTx>, lMax: nat, plan: Plan, v: nat, e: nat)
    requires UsesPlan(cf, txs, lMax, plan)
    ensures Choose(cf, v, e) == Sched(TryExec) <==> Unthrottled(v, e) == Sched(TryExec)
    ensures Choose(cf, v, e) == Sched(TryExec) <==> v >= e
  {
    if AtBoundary(cf, v, e) { BoundaryAhead(cf, txs, lMax, plan, v, e); }
  }

  /** Execution is in segment `j`, validation before it, and the plan does not let `j` run beside its predecessor. */
  ghost predicate HoldsBack(plan: Plan, v: nat, e: nat, j: nat) {
    && 0 < j < |plan.segments| && v < plan.segments[j].start <= e < plan.segments[j].end
    && !Parallel(plan.segments[j - 1], plan.segments[j])
  }

  lemma InSegment(segments: seq<Segment>, upto: nat, i: nat, j: nat)
    requires Tiles(segments, upto) && j < |segments| && segments[j].start <= i < segments[j].end
    ensures SegmentOf(segments, i) == j
  {
    LastWithFound(segments, i, |segments|, j);
    LastWithIn(segments, i, |segments|);
    if SegmentOf(segments, i) > j { StartsAscend(segments, upto, j, SegmentOf(segments, i)); }
  }

  lemma BeforeSegment(segments: seq<Segment>, upto: nat, i: nat, j: nat)
    requires Tiles(segments, upto) && j < |segments|
    ensures SegmentOf(segments, i) < j <==> i < segments[j].start
  {
    LastWithIn(segments, i, |segments|);
    var p := SegmentOf(segments, i);
    if p < j { StartsAscend(segments, upto, p, j); }
    if i < segments[j].start {
      SegmentOfMonotone(segments, upto, i, segments[j].start);
      InSegment(segments, upto, segments[j].start, j);
    }
  }

  lemma BoundaryIff(cf: Config, txs: seq<StablecoinTx>, lMax: nat, plan: Plan, v: nat, e: nat)
    requires UsesPlan(cf, txs, lMax, plan)
    ensures AtBoundary(cf, v, e) <==> exists j: nat :: HoldsBack(plan, v, e, j)
  {
    var segments := plan.segments;
    FindSegmentIs(cf, txs, lMax, plan, v);
    FindSegmentIs(cf, txs, lMax, plan, e);
    LastWithIn(segments, e, |segments|);
    var k := SegmentOf(segments, e);
    if k < |segments| {
      BeforeSegment(segments, |txs|, v, k);
      if AtBoundary(cf, v, e) { assert HoldsBack(plan, v, e, k); }
    }
    if j: nat :| HoldsBack(plan, v, e, j) {
      InSegment(segments, |txs|, e, j);
    }
  }

  /**
   What next_task does with the two indices it has read. Only behind a boundary,
   and not under backpressure, does a thread that finds nothing to validate go on
   with these indices instead of reading them again.
   */
  lemma ChooseExactly(cf: Config, txs: seq<StablecoinTx>, lMax: nat, plan: Plan, v: nat, e: nat)
    requires UsesPlan(cf, txs, lMax, plan)
    ensures Choose(cf, v, e) ==
            if v >= e then Sched(TryExec)
            else if (cf.window == 0 || e <= v + cf.window) && exists j: nat :: HoldsBack(plan, v, e, j)
            then Sched(TryVal(Fall(v, e)))
            else Sched(TryVal(Again))
  {
    BoundaryIff(cf, txs, lMax, plan, v, e);
    if AtBoundary(cf, v, e) { BoundaryAhead(cf, txs, lMax, plan, v, e); }
  }

  /** Where the thread goes on if it gets no validation task. */
  function ContOf(pc: Pc): Option<Cont> {
    match pc
    case Sched(TryVal(k)) => Some(k)
    case Sched(ValGuard(k)) => Some(k)
    case Check(k, _) => Some(k)
    case Claim(ValFetch(k)) => Some(k)
    case Claim(ValStatus(k, _)) => Some(k)
    case Claim(Drop(k)) => Some(k)
    case _ => None
  }

  /** A thread that comes back from a boundary had seen execution ahead. */
  predicate SawAhead(pc: Pc) {
    ContOf(pc).Some? && ContOf(pc).value.Fall? ==> ContOf(pc).value.v < ContOf(pc).value.e
  }

  /** The only way to try for an execution task is to have read a validation index at or past the execution index. */
  ghost predicate EntersFairly(a: Shared, pc: Pc, pc': Pc) {
    pc' == Sched(TryExec) ==> pc.Sched? && pc.sp.LoadExec? && pc.sp.v >= a.exec
  }

  lemma SawAheadScheduling(
      cf: Config, txs: seq<StablecoinTx>, lMax: nat, plan: Plan, a: Shared, p: SchedulePc, b: Shared, pc': Pc)
    requires UsesPlan(cf, txs, lMax, plan) && Scheduling(cf, a, p, b, pc') && SawAhead(Sched(p))
    ensures SawAhead(pc') && EntersFairly(a, Sched(p), pc')
  {
    if p.LoadExec? {
      ChooseAsUnthrottled(cf, txs, lMax, plan, p.v, a.exec);
      if AtBoundary(cf, p.v, a.exec) { BoundaryAhead(cf, txs, lMax, plan, p.v, a.exec); }
    }
  }

  lemma SawAheadWaiting(cf: Config, a: Shared, pc: Pc, b: Shared, pc': Pc)
    requires WellSized(|cf.block|, a) && Move(cf, a, pc, b, pc') && SawAhead(pc) && (pc.Check? || pc.Claim?)
    ensures SawAhead(pc') && EntersFairly(a, pc, pc')
  {
  }

  /** Work on a transaction ends with a fresh turn of next_task. */
  lemma WorkEndsAfresh(cf: Config, a: Shared, pc: Pc, b: Shared, pc': Pc)
    requires WellSized(|cf.block|, a) && Move(cf, a, pc, b, pc') && !(pc.Sched? || pc.Check? || pc.Claim?)
    ensures pc' == LetGo || pc' == Panic || !(pc'.Sched? || pc'.Check? || pc'.Claim?)
  {
    if InRange(|cf.block|, pc) {
      if pc.Run? && pc.rp.Apply? { ApplyGoesOn(cf, a, pc.i, pc.c, pc.rp, b, pc'); }
      if pc.Abort? && pc.ap.Mark? && pc.ap.keys != {} {
        var k :| k in pc.ap.keys && MarkOne(a, pc.i, pc.c, pc.ap, b, pc', k);
      }
    }
  }

  lemma SawAheadMove(cf: Config, txs: seq<StablecoinTx>, lMax: nat, plan: Plan, a: Shared, pc: Pc, b: Shared, pc': Pc)
    requires UsesPlan(cf, txs, lMax, plan) && WellSized(|cf.block|, a) && Move(cf, a, pc, b, pc') && SawAhead(pc)
    ensures SawAhead(pc') && EntersFairly(a, pc, pc')
  {
    match pc
    case Sched(p) => SawAheadScheduling(cf, txs, lMax, plan, a, p, b, pc');
    case Check(_, _) => SawAheadWaiting(cf, a, pc, b, pc');
    case Claim(_) => SawAheadWaiting(cf, a, pc, b, pc');
    case _ => WorkEndsAfresh(cf, a, pc, b, pc');
  }

  lemma ApplyGoesOn(cf: Config, a: Shared, i: nat, c: nat, p: RunPc, b: Shared, pc': Pc)
    requires WellSized(|cf.block|, a) && i < |cf.block| && p.Apply? && Running(cf, a, i, c, p, b, pc')
    ensures pc'.Run? || pc' == Panic
  {
    if p.left != {} {
      var k :| k in p.left && WriteOne(a, i, c, p, b, pc', k);
    } else if p.prev != {} {
      var k :| k in p.prev && DeleteOne(a, i, c, p, b, pc', k);
    }
  }

  ghost predicate AllSawAhead(s: System) {
    forall u: nat | u < |s.threads| :: SawAhead(s.threads[u])
  }

  lemma SawAheadNext(cf: Config, txs: seq<StablecoinTx>, lMax: nat, plan: Plan, run: seq<System>, q: nat)
    requires UsesPlan(cf, txs, lMax, plan) && IsRun(cf, run) && q + 1 < |run| && AllSawAhead(run[q])
    ensures AllSawAhead(run[q + 1])
    ensures forall u: nat |
              u < |run[q].threads| && u < |run[q + 1].threads| && run[q].threads[u] != run[q + 1].threads[u] ::
              EntersFairly(run[q].sh, run[q].threads[u], run[q + 1].threads[u])
  {
    assert StepsAt(cf, run, q);
    var t: nat :| Step(cf, run[q], t, run[q + 1]);
    SawAheadMove(cf, txs, lMax, plan, run[q].sh, run[q].threads[t], run[q + 1].sh, run[q + 1].threads[t]);
  }

  lemma {:induction false} SawAheadAlways(
      cf: Config, txs: seq<StablecoinTx>, lMax: nat, plan: Plan, run: seq<System>, q: nat)
    requires UsesPlan(cf, txs, lMax, plan) && IsRun(cf, run) && q < |run|
    ensures AllSawAhead(run[q])
  {
    if q == 0 {
    } else {
      SawAheadAlways(cf, txs, lMax, plan, run, q - 1);
      SawAheadNext(cf, txs, lMax, plan, run, q - 1);
    }
  }

  /**
   In every run, for every window and every plan from build_domain_plan, a
   thread turns to try_execute_next_version only when the validation index it
   has read is at least the execution index it has read.
   */
  lemma ThrottlingTransparent(
      cf: Config, txs: seq<StablecoinTx>, lMax: nat, plan: Plan, run: seq<System>, q: nat, u: nat)
    requires UsesPlan(cf, txs, lMax, plan) && IsRun(cf, run) && q + 1 < |run|
    requires u < |run[q].threads| && u < |run[q + 1].threads|
    requires run[q].threads[u] != Sched(TryExec) && run[q + 1].threads[u] == Sched(TryExec)
    ensures run[q].threads[u].Sched? && run[q].threads[u].sp.LoadExec? && run[q].threads[u].sp.v >= run[q].sh.exec
  {
    SawAheadAlways(cf, txs, lMax, plan, run, q);
    SawAheadNext(cf, txs, lMax, plan, run, q);
  }
}
