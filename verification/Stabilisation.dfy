/**
 Aborts die out: transaction 0 is never aborted or parked, and while the memory
 below an index is final, the transaction at that index is aborted at most once.
 */
module Stabilisation {
  import opened State
  import opened Protocol
  import opened Ownership
  import opened Footprint
  import opened ReadLog
  import opened Coverage
  import opened Runs

  // --- Transaction 0 ---

  /** The thread is not about to abort, abort or redo transaction 0, nor to resume it. */
  predicate SparesFirst(pc: Pc) {
    match pc
    case Val(i, _, p) => p.TryAbort? ==> i > 0
    case Abort(i, _, _) => i > 0
    case Redo(i, _) => i > 0
    case Fin(_, _, _, Wake(rest, _)) => 0 !in rest
    case _ => true
  }

  ghost predicate FirstSpared(s: System) {
    && (forall u: nat | u < |s.threads| :: SparesFirst(s.threads[u]))
    && (|s.sh.status| > 0 ==> s.sh.status[0].inc == 0 && !s.sh.status[0].Aborting?)
  }

  lemma FirstMove(cf: Config, a: Shared, pc: Pc, b: Shared, pc': Pc, hist: History)
    requires WellSized(|cf.block|, a) && Sane(|cf.block|, pc) && PcLogged(cf, a, hist, pc)
    requires |cf.block| > 0 && SparesFirst(pc) && a.status[0].inc == 0 && !a.status[0].Aborting?
    requires pc.Fin? && pc.fp.Take? ==> 0 !in a.deps[pc.i]
    requires pc.Run? ==> a.status[pc.i] == Executing(pc.c)
    requires Move(cf, a, pc, b, pc') && pc' != Panic
    ensures SparesFirst(pc') && |b.status| == |a.status| && b.status[0].inc == 0 && !b.status[0].Aborting?
  {
    match pc
    case Run(i, c, p) => FirstRunning(cf, a, i, c, p, b, pc');
    case Val(i, c, p) => FirstValidating(cf, a, i, c, p, b, pc', hist);
    case Abort(_, _, _) => FirstAborting(cf, a, pc, b, pc');
    case Redo(_, _) => FirstAborting(cf, a, pc, b, pc');
    case Fin(_, _, _, _) => FirstFinishing(cf, a, pc, b, pc');
    case Claim(_) => FirstFinishing(cf, a, pc, b, pc');
    case _ => PlainMove(cf, a, pc, b, pc');
  }

  lemma FirstValidating(cf: Config, a: Shared, i: nat, c: nat, p: ValidatePc, b: Shared, pc': Pc, hist: History)
    requires WellSized(|cf.block|, a) && i < |cf.block| && PcLogged(cf, a, hist, Val(i, c, p))
    requires SparesFirst(Val(i, c, p)) && a.status[0].inc == 0 && !a.status[0].Aborting?
    requires Validating(cf, a, i, c, p, b, pc') && pc' != Panic
    ensures SparesFirst(pc') && |b.status| == |a.status| && b.status[0].inc == 0 && !b.status[0].Aborting?
  {
    if p.Checking? && p.todo != [] { assert Sourced(hist, i, p.todo[0]); }
  }

  lemma FirstAborting(cf: Config, a: Shared, pc: Pc, b: Shared, pc': Pc)
    requires WellSized(|cf.block|, a) && Sane(|cf.block|, pc) && (pc.Abort? || pc.Redo?) && |cf.block| > 0
    requires SparesFirst(pc) && a.status[0].inc == 0 && !a.status[0].Aborting?
    requires Move(cf, a, pc, b, pc') && pc' != Panic
    ensures SparesFirst(pc') && |b.status| == |a.status| && b.status[0].inc == 0 && !b.status[0].Aborting?
  {
    assert b.status[0] == a.status[0];
  }

  lemma FirstFinishing(cf: Config, a: Shared, pc: Pc, b: Shared, pc': Pc)
    requires WellSized(|cf.block|, a) && Sane(|cf.block|, pc) && (pc.Fin? || pc.Claim?)
    requires |cf.block| > 0 && SparesFirst(pc) && a.status[0].inc == 0 && !a.status[0].Aborting?
    requires pc.Fin? && pc.fp.Take? ==> 0 !in a.deps[pc.i]
    requires Move(cf, a, pc, b, pc') && pc' != Panic
    ensures SparesFirst(pc') && |b.status| == |a.status| && b.status[0].inc == 0 && !b.status[0].Aborting?
  {
  }

  lemma FirstRunning(cf: Config, a: Shared, i: nat, c: nat, p: RunPc, b: Shared, pc': Pc)
    requires WellSized(|cf.block|, a) && InRange(|cf.block|, Run(i, c, p)) && a.status[i] == Executing(c)
    requires a.status[0].inc == 0 && !a.status[0].Aborting?
    requires Running(cf, a, i, c, p, b, pc') && pc' != Panic
    ensures SparesFirst(pc') && |b.status| == |a.status| && b.status[0].inc == 0 && !b.status[0].Aborting?
  {
  }

  lemma FirstStep(cf: Config, s: System, t: nat, s': System, at: seq<Place>, hist: History)
    requires Inv(cf, s, at, hist) && FirstSpared(s) && |cf.block| > 0 && Step(cf, s, t, s')
    ensures FirstSpared(s')
  {
    assert ThreadOwns(s.sh, s.threads[t], at, t) && PcLogged(cf, s.sh, hist, s.threads[t]);
    assert Placed(s.sh, s.threads, at, 0);
    forall d: nat | d < |cf.block| ensures 0 !in s.sh.deps[d] {
      assert HeldBy(at, s.sh.deps[d], Parked(d));
    }
    NoPanicStep(cf, s, t, s', at, hist);
    FirstMove(cf, s.sh, s.threads[t], s'.sh, s'.threads[t], hist);
  }

  lemma FirstNext(cf: Config, run: seq<System>, q: nat)
    requires IsRun(cf, run) && |cf.block| > 0 && q + 1 < |run| && FirstSpared(run[q])
    ensures FirstSpared(run[q + 1])
  {
    var t, at, hist := StepAt(cf, run, q);
    FirstStep(cf, run[q], t, run[q + 1], at, hist);
  }

  lemma {:induction false} RunFirst(cf: Config, run: seq<System>, q: nat)
    requires IsRun(cf, run) && |cf.block| > 0 && q < |run|
    ensures FirstSpared(run[q])
    decreases q
  {
    if q == 0 {
    } else {
      RunFirst(cf, run, q - 1);
      FirstNext(cf, run, q - 1);
    }
  }

  /** Transaction 0 is never aborted and never parked, in any run: it has one incarnation. */
  lemma FirstNeverAborted(cf: Config, run: seq<System>, q: nat)
    requires IsRun(cf, run) && |cf.block| > 0 && q < |run|
    ensures |run[q].sh.status| == |cf.block| == |run[q].sh.deps|
    ensures run[q].sh.status[0].inc == 0 && !run[q].sh.status[0].Aborting?
    ensures forall d: nat | d < |cf.block| :: 0 !in run[q].sh.deps[d]
  {
    RunFirst(cf, run, q);
    RunSafe(cf, run, q);
    var at, hist :| Inv(cf, run[q], at, hist);
    assert Placed(run[q].sh, run[q].threads, at, 0);
    forall d: nat | d < |cf.block| ensures 0 !in run[q].sh.deps[d] {
      assert HeldBy(at, run[q].sh.deps[d], Parked(d));
    }
  }

  // --- Incarnations of tasks are never ahead of the status ---

  ghost predicate PastPc(a: Shared, pc: Pc) {
    && (pc.Val? ==> pc.i < |a.status| && pc.c <= a.status[pc.i].inc)
    && (pc.Fin? ==> pc.i < |a.status| && pc.c <= a.status[pc.i].inc)
  }

  ghost predicate Past(s: System) {
    forall u: nat | u < |s.threads| :: PastPc(s.sh, s.threads[u])
  }

  /** The step changes the status of `x` and of no other transaction, in the way its program counter says. */
  predicate StatusAt(a: Shared, pc: Pc, b: Shared, x: nat) {
    && x < |a.status| == |b.status| && b.status == a.status[x := b.status[x]] && b.ins == a.ins
    && match pc
       case Run(i, c, p) => p.SetExecuted? && x == i && a.status[x] == Executing(c) && b.status[x] == Executed(c)
       case Fin(_, _, _, _) => a.status[x].Executing? && b.status[x] == ReadyToExecute(a.status[x].inc + 1)
       case Val(i, c, p) => p.TryAbort? && x == i && a.status[x] == Executed(c) && b.status[x] == Aborting(c)
       case Abort(i, c, _) => x == i && a.status[x] == Aborting(c) && b.status[x] == ReadyToExecute(c + 1)
       case _ => a.status[x].ReadyToExecute? && b.status[x] == Executing(a.status[x].inc)
  }

  lemma StatusOfRunning(cf: Config, a: Shared, i: nat, c: nat, p: RunPc, b: Shared, pc': Pc)
    requires WellSized(|cf.block|, a) && InRange(|cf.block|, Run(i, c, p)) && Running(cf, a, i, c, p, b, pc')
    ensures b.status == a.status || StatusAt(a, Run(i, c, p), b, i)
  {
  }

  lemma StatusOfFinishing(cf: Config, a: Shared, i: nat, c: nat, o: bool, p: FinishPc, b: Shared, pc': Pc)
    returns (x: nat)
    requires WellSized(|cf.block|, a) && InRange(|cf.block|, Fin(i, c, o, p)) && Finishing(cf, a, i, c, o, p, b, pc')
    ensures b.ins == a.ins && (b.status == a.status || StatusAt(a, Fin(i, c, o, p), b, x))
  {
    x := if p.Wake? && p.rest != [] then p.rest[0] else 0;
  }

  lemma StatusOfRest(cf: Config, a: Shared, pc: Pc, b: Shared, pc': Pc) returns (x: nat)
    requires WellSized(|cf.block|, a) && InRange(|cf.block|, pc) && Move(cf, a, pc, b, pc')
    requires !pc.Run? && !pc.Fin?
    ensures b.ins == a.ins && (b.status == a.status || StatusAt(a, pc, b, x))
  {
    match pc
    case Val(i, _, _) => x := i;
    case Abort(i, _, _) => x := i;
    case Redo(i, _) => x := i;
    case Claim(p) => x := if p.ExecStatus? then p.at else 0;
    case Sched(_) => x := 0;
    case Check(_, _) => x := 0;
  }

  /** A step changes at most one status. */
  lemma StatusOfMove(cf: Config, a: Shared, pc: Pc, b: Shared, pc': Pc) returns (x: nat)
    requires WellSized(|cf.block|, a) && InRange(|cf.block|, pc) && Move(cf, a, pc, b, pc')
    ensures b.status == a.status || StatusAt(a, pc, b, x)
  {
    match pc
    case Run(i, c, p) =>
      x := i;
      StatusOfRunning(cf, a, i, c, p, b, pc');
    case Fin(i, c, o, p) => x := StatusOfFinishing(cf, a, i, c, o, p, b, pc');
    case _ => x := StatusOfRest(cf, a, pc, b, pc');
  }

  lemma PastRunning(cf: Config, a: Shared, i: nat, c: nat, p: RunPc, b: Shared, pc': Pc)
    requires WellSized(|cf.block|, a) && InRange(|cf.block|, Run(i, c, p)) && Running(cf, a, i, c, p, b, pc')
    ensures PastPc(b, pc')
  {
  }

  lemma PastFinishing(cf: Config, a: Shared, i: nat, c: nat, o: bool, p: FinishPc, b: Shared, pc': Pc)
    requires WellSized(|cf.block|, a) && InRange(|cf.block|, Fin(i, c, o, p)) && Finishing(cf, a, i, c, o, p, b, pc')
    requires i < |b.status| && c <= b.status[i].inc
    ensures PastPc(b, pc')
  {
  }

  lemma PastRest(cf: Config, a: Shared, pc: Pc, b: Shared, pc': Pc)
    requires WellSized(|cf.block|, a) && InRange(|cf.block|, pc) && PastPc(b, pc) && Move(cf, a, pc, b, pc')
    requires !pc.Run? && !pc.Fin?
    ensures PastPc(b, pc')
  {
    match pc
    case Val(_, _, _) =>
    case Claim(_) =>
    case Abort(_, _, _) =>
    case Redo(_, _) =>
    case Sched(_) => PlainMove(cf, a, pc, b, pc');
    case Check(_, _) => PlainMove(cf, a, pc, b, pc');
  }

  lemma PastMove(cf: Config, a: Shared, pc: Pc, b: Shared, pc': Pc)
    requires WellSized(|cf.block|, a) && InRange(|cf.block|, pc) && PastPc(a, pc)
    requires Move(cf, a, pc, b, pc')
    ensures PastPc(b, pc') && |b.status| == |a.status|
    ensures forall i | 0 <= i < |a.status| :: a.status[i].inc <= b.status[i].inc
  {
    var x := StatusOfMove(cf, a, pc, b, pc');
    match pc
    case Run(i, c, p) => PastRunning(cf, a, i, c, p, b, pc');
    case Fin(i, c, o, p) => PastFinishing(cf, a, i, c, o, p, b, pc');
    case _ => PastRest(cf, a, pc, b, pc');
  }

  lemma PastNext(cf: Config, run: seq<System>, q: nat)
    requires IsRun(cf, run) && q + 1 < |run| && Past(run[q])
    ensures Past(run[q + 1])
  {
    var s, s' := run[q], run[q + 1];
    var t, at, hist := StepAt(cf, run, q);
    assert ThreadOwns(s.sh, s.threads[t], at, t);
    PastMove(cf, s.sh, s.threads[t], s'.sh, s'.threads[t]);
    forall u: nat | u < |s'.threads| ensures PastPc(s'.sh, s'.threads[u]) {
      assert PastPc(s.sh, s.threads[u]);
    }
  }

  lemma {:induction false} RunPast(cf: Config, run: seq<System>, q: nat)
    requires IsRun(cf, run) && q < |run|
    ensures Past(run[q])
    decreases q
  {
    if q == 0 {
    } else {
      RunPast(cf, run, q - 1);
      PastNext(cf, run, q - 1);
    }
  }

  // --- Final memory below an index ---

  /** The memory below `j` is `mv` and holds no ESTIMATE. */
  ghost predicate Final(s: System, mv: Memory, j: nat) {
    && j <= |s.sh.mv| && j <= |mv|
    && s.sh.mv[..j] == mv[..j]
    && forall i: nat | i < j :: forall k | k in mv[i] :: !mv[i][k].estimate
  }

  lemma {:induction false} LatestPrefix(mv: Memory, mv': Memory, k: StateKey, j: nat)
    requires j <= |mv| && j <= |mv'| && mv[..j] == mv'[..j]
    ensures Latest(mv, k, j) == Latest(mv', k, j)
  {
    if j == 0 {
    } else {
      assert mv[..j][j - 1] == mv'[..j][j - 1];
      assert mv[..j - 1] == mv[..j][..j - 1] && mv'[..j - 1] == mv'[..j][..j - 1];
      LatestPrefix(mv, mv', k, j - 1);
    }
  }

  ghost predicate AllGood(mv: Memory, j: nat, log: seq<ReadDesc>)
    requires j <= |mv|
  {
    forall m | 0 <= m < |log| :: Good(mv, j, log[m])
  }

  /** The recorded input of `j` matches the memory `mv`. */
  ghost predicate CleanInput(a: Shared, mv: Memory, j: nat)
    requires j <= |mv| && j < |a.ins|
  {
    a.ins[j].Some? ==> AllGood(mv, j, a.ins[j].value)
  }

  /** Whatever this thread does for an incarnation of `j` after `c0` rests on reads that match `mv`. */
  ghost predicate CleanPc(a: Shared, mv: Memory, j: nat, c0: nat, pc: Pc)
    requires j <= |mv| && j < |a.ins|
  {
    match pc
    case Run(i, c, p) =>
      i == j && c > c0 ==> (
        match p
        case Exec(log) => AllGood(mv, j, log)
        case ExecDep(log, _) => AllGood(mv, j, log)
        case Apply(log, _, _, _, _) => AllGood(mv, j, log)
        case RecordIn(log, _, _) => AllGood(mv, j, log)
        case RecordOut(_, _) => CleanInput(a, mv, j)
        case SetExecuted(_) => CleanInput(a, mv, j)
        case _ => true)
    case Fin(i, c, _, _) => i == j && c > c0 ==> CleanInput(a, mv, j)
    case Val(i, c, p) =>
      i == j && c > c0 ==> (
        match p
        case LoadSet => CleanInput(a, mv, j)
        case Checking(todo) => AllGood(mv, j, todo)
        case TryAbort => false)
    case _ => true
  }

  /** Incarnation `c0` of `j` is gone and every later one is clean. */
  ghost predicate CleanAfter(s: System, mv: Memory, j: nat, c0: nat)
    requires j <= |mv| && j < |s.sh.ins| && j < |s.sh.status|
  {
    && (s.sh.status[j] == Aborting(c0) || s.sh.status[j].inc > c0)
    && (s.sh.status[j].Executed? ==> CleanInput(s.sh, mv, j))
    && (forall u: nat | u < |s.threads| :: CleanPc(s.sh, mv, j, c0, s.threads[u]))
  }

  lemma CleanExec(cf: Config, a: Shared, i: nat, c: nat, log: seq<ReadDesc>, b: Shared, pc': Pc, mv: Memory)
    requires WellSized(|cf.block|, a) && i < |cf.block| && i <= |mv| && a.mv[..i] == mv[..i]
    requires Running(cf, a, i, c, Exec(log), b, pc') && AllGood(mv, i, log)
    ensures pc'.Run? && (pc'.rp.Exec? || pc'.rp.ExecDep? || pc'.rp.Apply?) && AllGood(mv, i, pc'.rp.log)
  {
    if cf.block[i].op(Vals(log)).Read? {
      LatestPrefix(a.mv, mv, cf.block[i].op(Vals(log)).key, i);
    }
  }

  lemma CleanRunning(cf: Config, a: Shared, i: nat, c: nat, p: RunPc, b: Shared, pc': Pc, mv: Memory, j: nat, c0: nat)
    requires WellSized(|cf.block|, a) && InRange(|cf.block|, Run(i, c, p)) && j < |cf.block|
    requires j <= |mv| && a.mv[..j] == mv[..j]
    requires i == j ==> c > c0
    requires CleanPc(a, mv, j, c0, Run(i, c, p)) && Running(cf, a, i, c, p, b, pc') && pc' != Panic
    ensures |b.ins| == |a.ins| && CleanPc(b, mv, j, c0, pc')
    ensures b.ins[j] == a.ins[j] || CleanInput(b, mv, j)
  {
    if i == j && p.Exec? { CleanExec(cf, a, i, c, p.log, b, pc', mv); }
  }

  lemma CleanValidating(
      cf: Config, a: Shared, i: nat, c: nat, p: ValidatePc, b: Shared, pc': Pc, mv: Memory, j: nat, c0: nat)
    requires WellSized(|cf.block|, a) && i < |cf.block| && j < |cf.block|
    requires j <= |mv| && a.mv[..j] == mv[..j]
    requires CleanPc(a, mv, j, c0, Val(i, c, p)) && Validating(cf, a, i, c, p, b, pc') && pc' != Panic
    ensures b.ins == a.ins && CleanPc(b, mv, j, c0, pc')
  {
    if i == j && p.Checking? && p.todo != [] && c > c0 {
      assert Good(mv, j, p.todo[0]);
      LatestPrefix(a.mv, mv, p.todo[0].key, i);
    }
  }

  lemma CleanFinishing(cf: Config, a: Shared, pc: Pc, b: Shared, pc': Pc, mv: Memory, j: nat, c0: nat)
    requires WellSized(|cf.block|, a) && InRange(|cf.block|, pc) && j < |cf.block| && j <= |mv| && pc.Fin?
    requires CleanPc(a, mv, j, c0, pc) && Move(cf, a, pc, b, pc') && pc' != Panic
    ensures b.ins == a.ins && CleanPc(b, mv, j, c0, pc')
  {
  }

  lemma CleanRest(cf: Config, a: Shared, pc: Pc, b: Shared, pc': Pc, mv: Memory, j: nat, c0: nat)
    requires WellSized(|cf.block|, a) && InRange(|cf.block|, pc) && j < |cf.block| && j <= |mv|
    requires a.status[j].Executed? ==> CleanInput(a, mv, j)
    requires !pc.Run? && !pc.Fin? && !pc.Val? && Move(cf, a, pc, b, pc') && pc' != Panic
    ensures b.ins == a.ins && CleanPc(b, mv, j, c0, pc')
  {
    match pc
    case Abort(_, _, _) =>
    case Redo(_, _) =>
    case Claim(_) =>
    case Sched(_) => PlainMove(cf, a, pc, b, pc');
    case Check(_, _) => PlainMove(cf, a, pc, b, pc');
  }

  /** A move of any thread keeps what it does for `j` clean. */
  lemma CleanMove(cf: Config, a: Shared, pc: Pc, b: Shared, pc': Pc, mv: Memory, j: nat, c0: nat)
    requires WellSized(|cf.block|, a) && WellSized(|cf.block|, b) && InRange(|cf.block|, pc) && j < |cf.block|
    requires j <= |mv| && a.mv[..j] == mv[..j]
    requires a.status[j] == Aborting(c0) || a.status[j].inc > c0
    requires a.status[j].Executed? ==> CleanInput(a, mv, j)
    requires pc.Run? ==> a.status[pc.i] == Executing(pc.c)
    requires CleanPc(a, mv, j, c0, pc) && Move(cf, a, pc, b, pc') && pc' != Panic
    ensures CleanPc(b, mv, j, c0, pc')
    ensures b.ins[j] == a.ins[j] || CleanInput(b, mv, j)
  {
    match pc
    case Run(i, c, p) => CleanRunning(cf, a, i, c, p, b, pc', mv, j, c0);
    case Fin(_, _, _, _) => CleanFinishing(cf, a, pc, b, pc', mv, j, c0);
    case Val(i, c, p) => CleanValidating(cf, a, i, c, p, b, pc', mv, j, c0);
    case _ => CleanRest(cf, a, pc, b, pc', mv, j, c0);
  }

  /** The status of `j` moves on, and when it becomes Executed the thread that did it is clean. */
  lemma CleanStatus(cf: Config, a: Shared, pc: Pc, b: Shared, pc': Pc, mv: Memory, j: nat, c0: nat)
    requires WellSized(|cf.block|, a) && WellSized(|cf.block|, b) && InRange(|cf.block|, pc) && j < |cf.block|
    requires j <= |mv|
    requires a.status[j] == Aborting(c0) || a.status[j].inc > c0
    requires a.status[j].Executed? ==> CleanInput(a, mv, j)
    requires CleanPc(a, mv, j, c0, pc) && Move(cf, a, pc, b, pc')
    requires b.ins[j] == a.ins[j] || CleanInput(b, mv, j)
    ensures b.status[j] == Aborting(c0) || b.status[j].inc > c0
    ensures b.status[j].Executed? ==> CleanInput(b, mv, j)
  {
    var x := StatusOfMove(cf, a, pc, b, pc');
    if b.status != a.status && x == j {
      assert StatusAt(a, pc, b, j);
    }
  }

  /** One step inside a stretch in which the memory below `j` is final. */
  lemma CleanStep(cf: Config, s: System, t: nat, s': System, at: seq<Place>, hist: History, mv: Memory, j: nat, c0: nat)
    requires Inv(cf, s, at, hist) && Step(cf, s, t, s') && j < |cf.block|
    requires Final(s, mv, j) && CleanAfter(s, mv, j, c0)
    ensures WellSized(|cf.block|, s'.sh) && CleanAfter(s', mv, j, c0)
  {
    assert ThreadOwns(s.sh, s.threads[t], at, t);
    NoPanicStep(cf, s, t, s', at, hist);
    FootprintsStep(cf, s, t, s', at, hist);
    CleanMove(cf, s.sh, s.threads[t], s'.sh, s'.threads[t], mv, j, c0);
    CleanStatus(cf, s.sh, s.threads[t], s'.sh, s'.threads[t], mv, j, c0);
    forall u: nat | u < |s'.threads| ensures CleanPc(s'.sh, mv, j, c0, s'.threads[u]) {
      if u != t {
        assert CleanPc(s.sh, mv, j, c0, s.threads[u]);
        CleanOther(cf, s, t, s', at, mv, j, c0, u);
      }
    }
  }

  lemma CleanOther(cf: Config, s: System, t: nat, s': System, at: seq<Place>, mv: Memory, j: nat, c0: nat, u: nat)
    requires Owned(|cf.block|, s, at) && Replaces(s, t, s') && u < |s.threads| && u != t && j < |cf.block| && j <= |mv|
    requires |s'.sh.ins| == |s.sh.ins| && (s'.sh.ins[j] == s.sh.ins[j] || CleanInput(s'.sh, mv, j))
    requires CleanPc(s.sh, mv, j, c0, s.threads[u])
    ensures CleanPc(s'.sh, mv, j, c0, s'.threads[u])
  {
  }

  // --- At most one abort ---

  /** Step `m` of the run aborts transaction `j`. */
  ghost predicate AbortsAt(run: seq<System>, m: nat, j: nat) {
    && m + 1 < |run| && j < |run[m].sh.status| && j < |run[m + 1].sh.status|
    && run[m].sh.status[j].Executed? && run[m + 1].sh.status[j].Aborting?
  }

  ghost predicate FinalFrom(run: seq<System>, p: nat, mv: Memory, j: nat) {
    forall q | p <= q < |run| :: Final(run[q], mv, j)
  }

  /** A clean transaction is not aborted by any move. */
  lemma CleanNotAborted(cf: Config, a: Shared, pc: Pc, b: Shared, pc': Pc, mv: Memory, j: nat, c0: nat)
    requires WellSized(|cf.block|, a) && InRange(|cf.block|, pc) && j < |cf.block| && j <= |mv|
    requires a.status[j].Executed? && a.status[j].inc > c0
    requires CleanPc(a, mv, j, c0, pc) && Move(cf, a, pc, b, pc') && pc' != Panic
    ensures |b.status| == |a.status| && !b.status[j].Aborting?
  {
    match pc
    case Run(i, c, p) =>
    case Fin(i, c, outside, p) =>
    case Val(i, c, p) =>
    case Abort(i, c, p) =>
    case Redo(i, p) =>
    case Claim(p) =>
    case _ => PlainMove(cf, a, pc, b, pc');
  }

  /** Right after an abort there is no thread at work for a later incarnation. */
  lemma CleanStart(cf: Config, run: seq<System>, m: nat, mv: Memory, j: nat)
    requires IsRun(cf, run) && m < |run| && j < |cf.block| && j <= |mv|
    requires |run[m].sh.status| == |cf.block| && run[m].sh.status[j].Aborting?
    ensures WellSized(|cf.block|, run[m].sh) && CleanAfter(run[m], mv, j, run[m].sh.status[j].inc)
  {
    var s := run[m];
    RunSafe(cf, run, m);
    RunPast(cf, run, m);
    var at, hist :| Inv(cf, s, at, hist);
    forall u: nat | u < |s.threads| ensures CleanPc(s.sh, mv, j, s.sh.status[j].inc, s.threads[u]) {
      assert PastPc(s.sh, s.threads[u]) && ThreadOwns(s.sh, s.threads[u], at, u);
    }
  }

  lemma CleanNext(cf: Config, run: seq<System>, mv: Memory, j: nat, c0: nat, q: nat)
    requires IsRun(cf, run) && q + 1 < |run| && j < |cf.block| && Final(run[q], mv, j)
    requires WellSized(|cf.block|, run[q].sh) && CleanAfter(run[q], mv, j, c0)
    ensures WellSized(|cf.block|, run[q + 1].sh) && CleanAfter(run[q + 1], mv, j, c0)
  {
    var t, at, hist := StepAt(cf, run, q);
    CleanStep(cf, run[q], t, run[q + 1], at, hist, mv, j, c0);
  }

  lemma {:induction false} CleanSince(cf: Config, run: seq<System>, mv: Memory, j: nat, m: nat, q: nat)
    requires IsRun(cf, run) && j < |cf.block| && j <= |mv| && m <= q < |run| && FinalFrom(run, m, mv, j)
    requires |run[m].sh.status| == |cf.block| && run[m].sh.status[j].Aborting?
    ensures WellSized(|cf.block|, run[q].sh) && CleanAfter(run[q], mv, j, run[m].sh.status[j].inc)
    decreases q
  {
    if q == m {
      CleanStart(cf, run, m, mv, j);
    } else {
      CleanSince(cf, run, mv, j, m, q - 1);
      CleanNext(cf, run, mv, j, run[m].sh.status[j].inc, q - 1);
    }
  }

  /** While the memory below `j` is final and free of estimates, `j` is aborted at most once. */
  lemma AbortedAtMostOnce(cf: Config, run: seq<System>, p: nat, mv: Memory, j: nat, m1: nat, m2: nat)
    requires IsRun(cf, run) && j < |cf.block| && FinalFrom(run, p, mv, j)
    requires p <= m1 <= m2 && AbortsAt(run, m1, j) && AbortsAt(run, m2, j)
    ensures m1 == m2
  {
    if m1 < m2 {
      assert Final(run[m1 + 1], mv, j);
      var t1, at1, hist1 := StepAt(cf, run, m1);
      CleanSince(cf, run, mv, j, m1 + 1, m2);
      var t, at, hist := StepAt(cf, run, m2);
      CleanStepNotAborted(cf, run[m2], t, run[m2 + 1], mv, j, run[m1 + 1].sh.status[j].inc);
    }
  }

  lemma CleanStepNotAborted(cf: Config, s: System, t: nat, s': System, mv: Memory, j: nat, c0: nat)
    requires WellSized(|cf.block|, s.sh) && j < |cf.block| && j <= |mv| && Step(cf, s, t, s')
    requires InRange(|cf.block|, s.threads[t]) && s'.threads[t] != Panic
    requires CleanAfter(s, mv, j, c0) && s.sh.status[j].Executed?
    ensures |s'.sh.status| == |s.sh.status| && !s'.sh.status[j].Aborting?
  {
    assert CleanPc(s.sh, mv, j, c0, s.threads[t]);
    CleanNotAborted(cf, s.sh, s.threads[t], s'.sh, s'.threads[t], mv, j, c0);
  }
}
